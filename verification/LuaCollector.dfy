/** The incremental tri-colour collector (lgc.c) and the operations of the program that work with it. */
module LuaCollector {
  import opened LuaBasics
  import opened LuaHeap
  import opened LuaHeapLists
  import opened LuaHeapStates
  import opened LuaHeapSweep
  import opened LuaHeapCollections

  class GlobalState {
    var body: Bodies
    var color: Colors
    var fixed: set<Ref>                // FIXEDBIT
    var weakKeys: set<Ref>             // KEYWEAKBIT
    var weakValues: set<Ref>           // VALUEWEAKBIT
    var finalized: set<Ref>            // FINALIZEDBIT
    var currentWhite: bool
    var gcstate: GCState
    var gray: seq<Ref>
    var grayagain: seq<Ref>
    var weak: seq<Ref>
    var rootgc: seq<Ref>               // ends with the main thread
    var udata: seq<Ref>                // goes on after the main thread
    var sweepgc: nat                   // how far the sweep is in rootgc + udata
    var strt: seq<seq<Ref>>
    var sweepstrgc: nat
    var tmudata: seq<Ref>
    var uvhead: seq<Ref>               // the open upvalues
    var mainthread: Ref
    var running: Ref
    var registry: Value
    var mt: seq<Value>
    ghost var done: set<Ref>           // gray objects traversed since the program ran last
    ghost var doomed: set<Ref>         // dead since the last atomic phase, and to be freed

    /** The invariant of the mark phase; the objects in `ex` are being traversed. */
    ghost predicate Marking(ex: set<Ref>)
      reads this
    {
      MarkPhase(body, color, currentWhite, gray + grayagain + weak, tmudata, done, ex)
    }

    /** `lua_newstate`: the main thread, the table of globals and the registry. */
    constructor NewState(buckets: nat)
      requires buckets > 0
      ensures Valid() && gcstate == GCSpause && running == mainthread
    {
      body := FIRST_BODIES;
      color := FIRST_COLORS;
      fixed, weakKeys, weakValues, finalized := {0}, {}, {}, {};
      currentWhite, gcstate := false, GCSpause;
      gray, grayagain, weak := [], [], [];
      rootgc, udata, sweepgc := [2, 1, 0], [], 0;
      strt, sweepstrgc := seq(buckets, _ => []), 0;
      tmudata, uvhead := [], [];
      mainthread, running, registry, mt := 0, 0, Gco(2), seq(9, _ => Nil);
      done, doomed := {}, {};
      new;
      FirstStateIsGood(Now());
    }

    /** `reallymarkobject`. */
    method ReallyMark(o: Ref, ghost ex: set<Ref>, ghost live: iset<Ref>)
      requires Marking(ex) && IsWhite(color, o)
      requires Within(body, color, live) && o in live
      modifies this`color, this`gray, this`done
      ensures Marking(ex) && Advanced(body, old(color), old(gray), old(done), color, gray, done) && !IsWhite(color, o)
      ensures |Whites(color)| < |old(Whites(color))|
      ensures body[o].Userdata? ==> AllOk(body, color, tmudata, o)
      ensures Within(body, color, live)
      decreases |Whites(color)|, 0
    {
      hide MarkPhase, AllOk, StrongOk, Whites, Within;
      ghost var color0, lists := color, gray + grayagain + weak;
      InHeap(body, color, currentWhite, lists, tmudata, done, ex, o);
      WhiteGone(color, o, Gray);
      WithinMarked(body, color, live, o, Gray);
      color := color[o := Gray];
      if body[o].TString? {
        AdvancedByOne(body, color0, gray, done, o, Gray);
        MarkingBegins(body, color0, currentWhite, lists, tmudata, done, ex, o, Gray);
        StringHasNone(body, color, tmudata, o);
        MarkingEnds(body, color, currentWhite, lists, tmudata, done, ex, o, Gray);
        assert color[o := Gray] == color;
      } else if body[o].Userdata? {
        AdvancedByOne(body, color0, gray, done, o, Black);
        WhiteGone(color0, o, Black);
        WithinMarked(body, color, live, o, Black);
        color := color[o := Black];
        assert color == color0[o := Black];
        MarkingBegins(body, color0, currentWhite, lists, tmudata, done, ex, o, Black);
        MarkUserdata(o, ex, live);
      } else if body[o].UpVal? {
        MarkingBegins(body, color0, currentWhite, lists, tmudata, done, ex, o, Gray);
        MarkUpvalue(o, ex, live);
        AdvancedThrough(body, color0, old(gray), old(done), color, gray, done, o);
      } else {
        AdvancedByOne(body, color0, gray, done, o, Gray);
        assert [o] + lists == ([o] + gray) + grayagain + weak;
        Queued(body, color0, currentWhite, lists, tmudata, done, ex, o);
        gray := [o] + gray;
      }
    }

    /** The metatable and the environment of a userdata, which is never gray. */
    method MarkUserdata(o: Ref, ghost ex: set<Ref>, ghost live: iset<Ref>)
      requires Marking(ex + {o}) && o in body && o in color && body[o].Userdata? && color[o].Black?
      requires o !in ex && o !in gray + grayagain + weak
      requires Within(body, color, live)
      modifies this`color, this`gray, this`done
      ensures Marking(ex) && Advanced(body, old(color), old(gray), old(done), color, gray, done)
      ensures AllOk(body, color, tmudata, o)
      ensures Within(body, color, live)
      decreases |Whites(color)|, 2
    {
      hide MarkPhase, AllOk, StrongOk, Whites, Within;
      References(body, color, currentWhite, gray + grayagain + weak, tmudata, done, ex + {o}, o);
      LiveReferences(body, color, live, o);
      ghost var color0, gray0, done0 := color, gray, done;
      MarkValue(body[o].meta, ex + {o}, live);
      ghost var color1, gray1, done1 := color, gray, done;
      MarkValue(body[o].env, ex + {o}, live);
      AdvancedIsTransitive(body, color0, gray0, done0, color1, gray1, done1, color, gray, done);
      UserdataMarked(body, color1, color, tmudata, o);
      MarkingEnds(body, color, currentWhite, gray + grayagain + weak, tmudata, done, ex, o, Black);
      assert color[o := Black] == color;
    }

    /** The value of an upvalue; only closed ones become black. */
    method MarkUpvalue(o: Ref, ghost ex: set<Ref>, ghost live: iset<Ref>)
      requires Marking(ex + {o}) && o in body && o in color && body[o].UpVal? && color[o].Gray?
      requires o !in ex && o !in gray + grayagain + weak
      requires Within(body, color, live)
      modifies this`color, this`gray, this`done
      ensures Marking(ex) && Darker(old(color), color) && old(done) <= done
      ensures Advanced(body, old(color), old(gray), old(done), color[o := Gray], gray, done) && !color[o].White?
      ensures color[o].Gray? ==> o in done
      ensures Within(body, color, live)
      decreases |Whites(color)|, 2
    {
      hide MarkPhase, AllOk, StrongOk, Whites, Within;
      References(body, color, currentWhite, gray + grayagain + weak, tmudata, done, ex + {o}, o);
      LiveReferences(body, color, live, o);
      MarkValue(ValueOf(body, body[o].v), ex + {o}, live);
      UpvalueMarked(body, color, tmudata, o);
      ghost var lists, color1 := gray + grayagain + weak, color;
      assert color1[o := Gray] == color1;
      if body[o].v.Closed? {
        WithinMarked(body, color, live, o, Black);
        color := color[o := Black];
        MarkingEnds(body, color1, currentWhite, lists, tmudata, done, ex, o, Black);
        assert color[o := Gray] == color1;
      } else {
        MarkingEnds(body, color, currentWhite, lists, tmudata, done, ex, o, Gray);
        Traversed(body, color, currentWhite, lists, tmudata, done, ex, o);
        done := done + {o};
      }
    }

    /** `markvalue` and `markobject`. */
    method MarkValue(v: Value, ghost ex: set<Ref>, ghost live: iset<Ref>)
      requires Marking(ex) && (v.Gco? ==> v.ref in color)
      requires Within(body, color, live) && (v.Gco? ==> v.ref in live)
      modifies this`color, this`gray, this`done
      ensures Marking(ex) && Advanced(body, old(color), old(gray), old(done), color, gray, done)
      ensures v.Gco? ==> Ok(color, [], v.ref)
      ensures Within(body, color, live)
      decreases |Whites(color)|, 1
    {
      hide MarkPhase, Whites, Within;
      AdvancedNothing(body, color, gray, done);
      if v.Gco? && color[v.ref].White? {
        ReallyMark(v.ref, ex, live);
      }
    }

    /** A loop of `markvalue` over the slots of an object. */
    method MarkValues(vs: seq<Value>, ghost ex: set<Ref>, ghost live: iset<Ref>)
      requires Marking(ex) && forall i :: 0 <= i < |vs| && vs[i].Gco? ==> vs[i].ref in color
      requires Within(body, color, live) && LiveValues(live, vs)
      modifies this`color, this`gray, this`done
      ensures Marking(ex) && Advanced(body, old(color), old(gray), old(done), color, gray, done)
      ensures ValuesOk(color, vs)
      ensures Within(body, color, live)
    {
      hide MarkPhase, Whites, Advanced, UpvaluesDone, Within;
      AdvancedNothing(body, color, gray, done);
      var i := 0;
      while i < |vs|
        invariant Within(body, color, live)
        invariant 0 <= i <= |vs| && Marking(ex) && color.Keys == old(color).Keys
        invariant Advanced(body, old(color), old(gray), old(done), color, gray, done)
        invariant ValuesOk(color, vs[..i])
      {
        ghost var c1, g1, d1 := color, gray, done;
        MarkValue(vs[i], ex, live);
        AdvancedIsTransitive(body, old(color), old(gray), old(done), c1, g1, d1, color, gray, done);
        AdvancedIsDarker(body, c1, g1, d1, color, gray, done);
        ValuesStayOk(c1, color, vs[..i]);
        assert vs[..i + 1] == vs[..i] + [vs[i]];
        i := i + 1;
      }
      assert vs[..i] == vs;
    }

    /** `traversetable`: marks what the table refers to strongly; a weak table goes to the weak list. */
    method TraverseTable(h: Ref, ghost live: iset<Ref>) returns (isWeak: bool)
      requires Marking({h}) && h in body && body[h].Table? && h !in gray + grayagain + weak
      requires Within(body, color, live)
      modifies this`color, this`gray, this`done, this`weak, this`weakKeys, this`weakValues
      ensures Marking({h}) && Advanced(body, old(color), old(gray), old(done), color, gray, done)
      ensures isWeak <==> IsWeak(body, h)
      ensures isWeak ==> weak == [h] + old(weak) && BitsMatch(body, weakKeys, weakValues, h)
      ensures !isWeak ==> weak == old(weak) && weakKeys == old(weakKeys) && weakValues == old(weakValues)
      ensures !isWeak ==> AllOk(body, color, tmudata, h)
      ensures StrongOk(body, color, tmudata, h)
      ensures weakKeys - {h} == old(weakKeys) - {h} && weakValues - {h} == old(weakValues) - {h}
      ensures Within(body, color, live)
    {
      hide MarkPhase, Whites, Advanced, AllOk, StrongOk, UpvaluesDone, Within;
      ghost var c0, g0, d0 := color, gray, done;
      References(body, color, currentWhite, gray + grayagain + weak, tmudata, done, {h}, h);
      ItsOwnReferences(body, color, h);
      ExemptIsMarked(body, color, currentWhite, gray + grayagain + weak, tmudata, done, {h}, h);
      LiveReferences(body, color, live, h);
      MarkValue(body[h].meta, {h}, live);
      ghost var c1, g1, d1 := color, gray, done;
      AdvancedIsDarker(body, c0, g0, d0, c1, g1, d1);
      NotListed(body, c0, g0, d0, c1, g1, d1, h);
      var mode := ModeOf(body, body[h].meta);
      isWeak := mode.weakKey || mode.weakValue;
      if isWeak {
        LinkWeak(h, mode);
      }
      if mode.weakKey && mode.weakValue {
        TableMarked(body, color, tmudata, h);
      } else {
        MarkContents(h, mode, live);
        AdvancedIsTransitive(body, c0, g0, d0, c1, g1, d1, color, gray, done);
      }
    }

    /** Puts a weak table in the list of tables to be cleared. */
    method LinkWeak(h: Ref, mode: Mode)
      requires Marking({h}) && h in body && body[h].Table? && h !in gray + grayagain + weak
      requires mode == ModeOf(body, body[h].meta) && (mode.weakKey || mode.weakValue)
      modifies this`weak, this`weakKeys, this`weakValues
      ensures Marking({h}) && weak == [h] + old(weak) && BitsMatch(body, weakKeys, weakValues, h)
      ensures weakKeys - {h} == old(weakKeys) - {h} && weakValues - {h} == old(weakValues) - {h}
    {
      hide MarkPhase;
      weakKeys := if mode.weakKey then weakKeys + {h} else weakKeys - {h};
      weakValues := if mode.weakValue then weakValues + {h} else weakValues - {h};
      JoinsList(body, color, currentWhite, gray + grayagain, weak, tmudata, done, {h}, h);
      assert gray + grayagain + [h] + weak == gray + grayagain + ([h] + weak);
      weak := [h] + weak;
    }

    /** The array part and the hash part, as far as they are strong. */
    method MarkContents(h: Ref, mode: Mode, ghost live: iset<Ref>)
      requires Marking({h}) && h in body && body[h].Table? && mode == ModeOf(body, body[h].meta)
      requires body[h].meta.Gco? ==> Ok(color, [], body[h].meta.ref)
      requires Within(body, color, live)
      modifies this`color, this`gray, this`done
      ensures Marking({h}) && Advanced(body, old(color), old(gray), old(done), color, gray, done)
      ensures StrongOk(body, color, tmudata, h) && (mode == Mode(false, false) ==> AllOk(body, color, tmudata, h))
      ensures Within(body, color, live)
    {
      hide MarkPhase, Whites, Advanced, AllOk, StrongOk, UpvaluesDone, Within;
      References(body, color, currentWhite, gray + grayagain + weak, tmudata, done, {h}, h);
      ItsOwnReferences(body, color, h);
      ExemptIsMarked(body, color, currentWhite, gray + grayagain + weak, tmudata, done, {h}, h);
      LiveReferences(body, color, live, h);
      AdvancedNothing(body, color, gray, done);
      if !mode.weakValue {
        MarkValues(body[h].arr, {h}, live);
      }
      ghost var c2, g2, d2 := color, gray, done;
      AdvancedIsDarker(body, old(color), old(gray), old(done), c2, g2, d2);
      MarkEntries(h, mode, live);
      AdvancedIsDarker(body, c2, g2, d2, color, gray, done);
      AdvancedIsTransitive(body, old(color), old(gray), old(done), c2, g2, d2, color, gray, done);
      DarkerIsTransitive(old(color), c2, color);
      ValueStaysOk(old(color), color, body[h].meta);
      if !mode.weakValue {
        ValuesStayOk(c2, color, body[h].arr);
      }
      TableMarked(body, color, tmudata, h);
    }

    /** The entries of the hash part, from the last to the first. */
    method MarkEntries(h: Ref, mode: Mode, ghost live: iset<Ref>)
      requires Marking({h}) && h in body && body[h].Table?
      requires mode == ModeOf(body, body[h].meta)
      requires Within(body, color, live)
      modifies this`color, this`gray, this`done
      ensures Marking({h}) && Advanced(body, old(color), old(gray), old(done), color, gray, done)
      ensures EntriesOk(color, body[h].node, mode, 0)
      ensures Within(body, color, live)
    {
      hide MarkPhase, Whites, Advanced, UpvaluesDone, Within;
      References(body, color, currentWhite, gray + grayagain + weak, tmudata, done, {h}, h);
      ItsOwnReferences(body, color, h);
      ExemptIsMarked(body, color, currentWhite, gray + grayagain + weak, tmudata, done, {h}, h);
      LiveReferences(body, color, live, h);
      AdvancedNothing(body, color, gray, done);
      var node := body[h].node;
      var i := |node|;
      while i > 0
        invariant Within(body, color, live)
        invariant 0 <= i <= |node| && Marking({h}) && color.Keys == old(color).Keys
        invariant Advanced(body, old(color), old(gray), old(done), color, gray, done)
        invariant EntriesOk(color, node, mode, i)
      {
        i := i - 1;
        if node[i].val != Nil {
          assert LiveEntry(node, i) && LiveParts(live, mode, node[i]);
          ghost var c1, g1, d1 := color, gray, done;
          if !mode.weakKey {
            MarkValue(node[i].key, {h}, live);
          }
          ghost var c2, g2, d2 := color, gray, done;
          AdvancedNothing(body, c1, g1, d1);
          AdvancedIsDarker(body, c1, g1, d1, c2, g2, d2);
          if !mode.weakValue {
            MarkValue(node[i].val, {h}, live);
          }
          AdvancedNothing(body, c2, g2, d2);
          AdvancedIsTransitive(body, old(color), old(gray), old(done), c1, g1, d1, c2, g2, d2);
          AdvancedIsTransitive(body, old(color), old(gray), old(done), c2, g2, d2, color, gray, done);
          AdvancedIsDarker(body, c2, g2, d2, color, gray, done);
          OneMoreEntry(c1, c2, color, node, mode, i);
        } else {
          OneMoreEntry(color, color, color, node, mode, i);
        }
      }
    }

    /** `propagatemark`: traverses the first gray object. */
    method PropagateMark(ghost live: iset<Ref>)
      requires Marking({}) && gray != []
      requires Within(body, color, live)
      modifies this`color, this`gray, this`done, this`grayagain, this`weak, this`weakKeys, this`weakValues
      ensures Marking({}) && Darker(old(color), color) && old(done) <= done
      ensures |Whites(color)| + |gray| < |old(Whites(color))| + |old(gray)|
      ensures old(UpvaluesDone(body, color, done, {})) ==> UpvaluesDone(body, color, done, {})
      ensures old(AgainDone(body, grayagain, done)) ==> AgainDone(body, grayagain, done)
      ensures old(WeakDone(body, weak, done, weakKeys, weakValues)) ==> WeakDone(body, weak, done, weakKeys, weakValues)
      ensures Within(body, color, live)
      ensures NoWeakBlackened(body, old(color), color)
    {
      hide MarkPhase, Whites, UpvaluesDone, Within;
      var o := gray[0];
      assert (gray + grayagain + weak)[1..] == gray[1..] + grayagain + weak;
      Popped(body, color, currentWhite, gray + grayagain + weak, tmudata, done);
      gray := gray[1..];
      if body[o].Table? {
        PropagateTable(o, live);
      } else if body[o].Thread? {
        PropagateThread(o, live);
      } else {
        PropagateSlots(o, live);
      }
    }

    method PropagateTable(o: Ref, ghost live: iset<Ref>)
      requires o in body && body[o].Table? && o in color && color[o].Gray? && o !in gray + grayagain + weak
      requires MarkPhase(body, color[o := Black], currentWhite, gray + grayagain + weak, tmudata, done, {o})
      requires Within(body, color, live)
      modifies this`color, this`gray, this`done, this`weak, this`weakKeys, this`weakValues
      ensures Marking({}) && Darker(old(color), color) && old(done) <= done
      ensures |Whites(color)| + |gray| <= |old(Whites(color))| + |old(gray)|
      ensures old(UpvaluesDone(body, color, done, {})) ==> UpvaluesDone(body, color, done, {})
      ensures old(WeakDone(body, weak, done, weakKeys, weakValues)) ==> WeakDone(body, weak, done, weakKeys, weakValues)
      ensures Within(body, color, live)
      ensures NoWeakBlackened(body, old(color), color)
    {
      hide MarkPhase, Whites, Advanced, AllOk, StrongOk, UpvaluesDone, Within;
      WhitesUnchanged(color, o, Black);
      WithinMarked(body, color, live, o, Black);
      color := color[o := Black];
      NoUpvalueRecolored(body, old(color), done, o, Black);
      ghost var color1, gray1, done1 := color, gray, done;
      var isWeak := TraverseTable(o, live);
      UpvaluesStayDone(body, color1, gray1, done1, color, gray, done, {});
      AdvancedIsDarker(body, old(color)[o := Black], old(gray), old(done), color, gray, done);
      TableIsTraversed(body, old(color), old(gray), old(done), color, gray, done, o, isWeak);
      if isWeak {
        ghost var black := color;
        WhitesUnchanged(black, o, Gray);
        WithinMarked(body, black, live, o, Gray);
        color := color[o := Gray];
        StaysGray(body, black, currentWhite, gray + grayagain + weak, tmudata, done, o);
        NoUpvalueRecolored(body, black, done, o, Gray);
        if WeakDone(body, old(weak), old(done), old(weakKeys), old(weakValues)) {
          WeakJoins(body, old(weak), old(done), old(weakKeys), old(weakValues), o, done + {o}, weakKeys, weakValues);
        }
        if UpvaluesDone(body, color, done, {}) {
          MoreDone(body, color, done, done + {o}, {});
        }
        done := done + {o};
      } else {
        NotInRest(body, old(color)[o := Black], old(gray), old(done), color, gray, done, o);
        assert {} + {o} == {o};
        MarkingEnds(body, color, currentWhite, gray + grayagain + weak, tmudata, done, {}, o, Black);
        assert color[o := Black] == color;
      }
    }

    method PropagateThread(o: Ref, ghost live: iset<Ref>)
      requires o in body && body[o].Thread? && o in color && color[o].Gray? && o !in gray + grayagain + weak
      requires Marking({o})
      requires Within(body, color, live)
      modifies this`color, this`gray, this`done, this`grayagain
      ensures Marking({}) && Darker(old(color), color) && old(done) <= done
      ensures |Whites(color)| + |gray| <= |old(Whites(color))| + |old(gray)|
      ensures old(UpvaluesDone(body, color, done, {})) ==> UpvaluesDone(body, color, done, {})
      ensures old(AgainDone(body, grayagain, done)) ==> AgainDone(body, grayagain, done)
      ensures Within(body, color, live)
      ensures NoWeakBlackened(body, old(color), color)
    {
      hide MarkPhase, Whites, Advanced, AllOk, StrongOk, Within;
      assert gray + grayagain + weak == gray + (grayagain + weak);
      JoinsList(body, color, currentWhite, gray, grayagain + weak, tmudata, done, {o}, o);
      assert gray + [o] + (grayagain + weak) == gray + ([o] + grayagain) + weak;
      grayagain := [o] + grayagain;
      TraverseStack(o, live);
      UpvaluesStayDone(body, old(color), old(gray), old(done), color, gray, done, {});
      AdvancedIsDarker(body, old(color), old(gray), old(done), color, gray, done);
      AdvancedBlackensNoWeak(body, old(color), old(gray), old(done), color, gray, done);
      StaysGray(body, color, currentWhite, gray + grayagain + weak, tmudata, done, o);
      assert color[o := Gray] == color;
      done := done + {o};
    }

    method PropagateSlots(o: Ref, ghost live: iset<Ref>)
      requires o in body && (body[o].Closure? || body[o].Proto?) && o in color && color[o].Gray? &&
        o !in gray + grayagain + weak
      requires MarkPhase(body, color[o := Black], currentWhite, gray + grayagain + weak, tmudata, done, {o})
      requires Within(body, color, live)
      modifies this`color, this`gray, this`done
      ensures Marking({}) && Darker(old(color), color) && old(done) <= done
      ensures |Whites(color)| + |gray| <= |old(Whites(color))| + |old(gray)|
      ensures old(UpvaluesDone(body, color, done, {})) ==> UpvaluesDone(body, color, done, {})
      ensures Within(body, color, live)
      ensures NoWeakBlackened(body, old(color), color)
    {
      hide MarkPhase, Whites, Advanced, AllOk, StrongOk, Within;
      WhitesUnchanged(color, o, Black);
      WithinMarked(body, color, live, o, Black);
      color := color[o := Black];
      NoUpvalueRecolored(body, old(color), done, o, Black);
      TraverseSlots(o, live);
      TableIsTraversed(body, old(color), old(gray), old(done), color, gray, done, o, false);
      UpvaluesStayDone(body, old(color)[o := Black], old(gray), old(done), color, gray, done, {});
      AdvancedIsDarker(body, old(color)[o := Black], old(gray), old(done), color, gray, done);
      NotInRest(body, old(color)[o := Black], old(gray), old(done), color, gray, done, o);
      assert {} + {o} == {o};
      MarkingEnds(body, color, currentWhite, gray + grayagain + weak, tmudata, done, {}, o, Black);
      assert color[o := Black] == color;
    }

    /** `traversestack`. */
    method TraverseStack(o: Ref, ghost live: iset<Ref>)
      requires Marking({o}) && o in body && body[o].Thread?
      requires Within(body, color, live)
      modifies this`color, this`gray, this`done
      ensures Marking({o}) && Advanced(body, old(color), old(gray), old(done), color, gray, done)
      ensures StrongOk(body, color, tmudata, o)
      ensures Within(body, color, live)
    {
      hide MarkPhase, Whites, Advanced, AllOk, StrongOk, Within;
      References(body, color, currentWhite, gray + grayagain + weak, tmudata, done, {o}, o);
      ExemptIsMarked(body, color, currentWhite, gray + grayagain + weak, tmudata, done, {o}, o);
      LiveReferences(body, color, live, o);
      ItsOwnReferences(body, color, o);
      MarkValue(body[o].globals, {o}, live);
      ghost var c1, g1, d1 := color, gray, done;
      AdvancedIsDarker(body, old(color), old(gray), old(done), c1, g1, d1);
      MarkValues(body[o].stack, {o}, live);
      AdvancedIsDarker(body, c1, g1, d1, color, gray, done);
      AdvancedIsTransitive(body, old(color), old(gray), old(done), c1, g1, d1, color, gray, done);
      ValueStaysOk(c1, color, body[o].globals);
      SlotsMarked(body, color, tmudata, o);
    }

    /** `traverseclosure` and `traverseproto`. */
    method TraverseSlots(o: Ref, ghost live: iset<Ref>)
      requires Marking({o}) && o in body && (body[o].Closure? || body[o].Proto?)
      requires Within(body, color, live)
      modifies this`color, this`gray, this`done
      ensures Marking({o}) && Advanced(body, old(color), old(gray), old(done), color, gray, done)
      ensures AllOk(body, color, tmudata, o)
      ensures Within(body, color, live)
    {
      hide MarkPhase, Whites, Advanced, AllOk, StrongOk, Within;
      References(body, color, currentWhite, gray + grayagain + weak, tmudata, done, {o}, o);
      ExemptIsMarked(body, color, currentWhite, gray + grayagain + weak, tmudata, done, {o}, o);
      LiveReferences(body, color, live, o);
      ItsOwnReferences(body, color, o);
      AdvancedNothing(body, color, gray, done);
      if body[o].Closure? {
        MarkValue(body[o].env, {o}, live);
      }
      ghost var c1, g1, d1 := color, gray, done;
      AdvancedIsDarker(body, old(color), old(gray), old(done), c1, g1, d1);
      MarkValues(body[o].slots, {o}, live);
      AdvancedIsDarker(body, c1, g1, d1, color, gray, done);
      AdvancedIsTransitive(body, old(color), old(gray), old(done), c1, g1, d1, color, gray, done);
      if body[o].Closure? {
        ValueStaysOk(c1, color, body[o].env);
      }
      SlotsMarked(body, color, tmudata, o);
    }

    /** `propagateall`. */
    method PropagateAll(ghost live: iset<Ref>)
      requires Marking({})
      requires Within(body, color, live)
      modifies this`color, this`gray, this`done, this`grayagain, this`weak, this`weakKeys, this`weakValues
      ensures Marking({}) && gray == [] && Darker(old(color), color) && old(done) <= done
      ensures old(UpvaluesDone(body, color, done, {})) ==> UpvaluesDone(body, color, done, {})
      ensures old(AgainDone(body, grayagain, done)) ==> AgainDone(body, grayagain, done)
      ensures old(WeakDone(body, weak, done, weakKeys, weakValues)) ==> WeakDone(body, weak, done, weakKeys, weakValues)
      ensures Within(body, color, live)
      ensures NoWeakBlackened(body, old(color), color)
    {
      hide MarkPhase, Whites, AgainDone, WeakDone, UpvaluesDone, Within, NoWeakBlackened;
      NothingBlackened(body, color);
      while gray != []
        invariant Within(body, color, live) && NoWeakBlackened(body, old(color), color)
        invariant Marking({}) && Darker(old(color), color) && old(done) <= done
        invariant old(UpvaluesDone(body, color, done, {})) ==> UpvaluesDone(body, color, done, {})
        invariant old(AgainDone(body, grayagain, done)) ==> AgainDone(body, grayagain, done)
        invariant old(WeakDone(body, weak, done, weakKeys, weakValues)) ==>
          WeakDone(body, weak, done, weakKeys, weakValues)
        decreases |Whites(color)| + |gray|
      {
        ghost var c1 := color;
        PropagateMark(live);
        DarkerIsTransitive(old(color), c1, color);
        NoWeakBlackenedMore(body, old(color), c1, color);
      }
    }

    /** `remarkupvals`: the value of a gray open upvalue may have changed since it was marked. */
    method RemarkUpvals(ghost live: iset<Ref>)
      requires Marking({}) && forall r :: r in body && body[r].IsOpen() ==> r in uvhead
      requires Within(body, color, live)
      modifies this`color, this`gray, this`done
      ensures Marking({}) && Advanced(body, old(color), old(gray), old(done), color, gray, done)
      ensures UpvaluesDone(body, color, done, {})
      ensures Within(body, color, live)
    {
      hide MarkPhase, Whites, Advanced, AllOk, StrongOk, Within;
      AdvancedNothing(body, color, gray, done);
      ghost var rest := set r | r in uvhead;
      var i := 0;
      while i < |uvhead|
        invariant Within(body, color, live)
        invariant 0 <= i <= |uvhead| && Marking({})
        invariant Advanced(body, old(color), old(gray), old(done), color, gray, done)
        invariant UpvaluesDone(body, color, done, rest)
        invariant forall r :: r in rest ==> r in uvhead[i..]
      {
        var uv := uvhead[i];
        ghost var c1, g1, d1 := color, gray, done;
        if uv in body && body[uv].UpVal? && uv in color && color[uv].Gray? {
          References(body, color, currentWhite, gray + grayagain + weak, tmudata, done, {}, uv);
          LiveReferences(body, color, live, uv);
          MarkValue(ValueOf(body, body[uv].v), {}, live);
          AdvancedIsDarker(body, c1, g1, d1, color, gray, done);
          UpvaluesStayDone(body, c1, g1, d1, color, gray, done, rest);
          UpvalueMarked(body, color, tmudata, uv);
          Traversed(body, color, currentWhite, gray + grayagain + weak, tmudata, done, {}, uv);
          MoreDone(body, color, done, done + {uv}, rest);
          ghost var d2 := done;
          done := done + {uv};
          AdvancedMore(body, c1, g1, d1, color, gray, d2, done);
          AdvancedIsTransitive(body, old(color), old(gray), old(done), c1, g1, d1, color, gray, done);
        }
        rest := rest - {uv};
        i := i + 1;
      }
    }

    /** `markmt`. */
    method MarkMt(ghost live: iset<Ref>)
      requires Marking({}) && forall i :: 0 <= i < |mt| && mt[i].Gco? ==> mt[i].ref in color
      requires Within(body, color, live) && LiveValues(live, mt)
      modifies this`color, this`gray, this`done
      ensures Marking({}) && Advanced(body, old(color), old(gray), old(done), color, gray, done)
      ensures ValuesOk(color, mt)
      ensures Within(body, color, live)
    {
      hide Within;
      MarkValues(mt, {}, live);
    }

    /** `luaC_separateudata`: unmarked userdata with a finalizer go to the end of the list of those to
        be finalized, in order. From now on no finalizer is due for any unmarked userdata. */
    method SeparateUdata()
      requires Marking({}) && Distinct(udata)
      requires forall u :: u in udata ==> u in body && u in color && body[u].Userdata?
      modifies this`udata, this`tmudata, this`finalized
      ensures Marking({}) && tmudata == old(tmudata) + Chosen(body, color, old(finalized), old(udata))
      ensures udata == Passed(body, color, old(finalized), old(udata))
      ensures finalized == old(finalized) + WhitesIn(color, old(udata))
    {
      hide MarkPhase, Chosen, Passed, WhitesIn, FinalizerIn;
      ghost var u0, n := udata, 0;
      var i := 0;
      NoneChosen(body, color, finalized, udata);
      while i < |udata|
        invariant 0 <= n <= |u0| && Marking({})
        invariant tmudata == old(tmudata) + Chosen(body, color, old(finalized), u0[..n])
        invariant i == |Passed(body, color, old(finalized), u0[..n])|
        invariant udata == Passed(body, color, old(finalized), u0[..n]) + u0[n..]
        invariant finalized == old(finalized) + WhitesIn(color, u0[..n])
        decreases |udata| - i
      {
        var curr := udata[i];
        NextChosen(body, color, old(finalized), u0, n);
        NotSeenYet(color, u0, n);
        NextPassed(Passed(body, color, old(finalized), u0[..n]), u0, n, udata);
        n := n + 1;
        if !color[curr].White? || curr in finalized {
          i := i + 1;
        } else {
          finalized := finalized + {curr};
          if !FinalizerIn(body, body[curr].meta) {
            i := i + 1;
          } else {
            QueueOne(i);
          }
        }
      }
      assert u0[..n] == u0;
    }

    /** A userdata leaves the list of userdata for the end of the list of those to be finalized. */
    method QueueOne(i: nat)
      requires Marking({}) && i < |udata|
      modifies this`udata, this`tmudata
      ensures Marking({}) && tmudata == old(tmudata) + [old(udata)[i]]
      ensures udata == old(udata)[..i] + old(udata)[i + 1..]
    {
      hide MarkPhase;
      MoreQueued(body, color, currentWhite, gray + grayagain + weak, tmudata, tmudata + [udata[i]], done);
      tmudata := tmudata + [udata[i]];
      udata := udata[..i] + udata[i + 1..];
    }

    /** `marktmu`: marks the userdata that wait for their finalizers, and what they refer to. */
    method MarkTmu(ghost live: iset<Ref>)
      requires Marking({}) && Distinct(tmudata) && forall u :: u in tmudata ==> u in body && body[u].Userdata?
      requires Within(body, color, live) && forall u :: u in tmudata ==> u in live
      modifies this`color, this`gray, this`done
      ensures Marking({}) && old(done) <= done && (forall u :: u in tmudata ==> u in done)
      ensures color.Keys == old(color).Keys && forall r :: r in color && !old(color)[r].White? ==> !color[r].White?
      ensures old(UpvaluesDone(body, color, done, {})) ==> UpvaluesDone(body, color, done, {})
      ensures Within(body, color, live)
      ensures NoWeakBlackened(body, old(color), color)
    {
      hide MarkPhase, Whites, Advanced, AllOk, StrongOk, UpvaluesDone, Within, NoWeakBlackened;
      NothingBlackened(body, color);
      var i := 0;
      while i < |tmudata|
        invariant Within(body, color, live) && NoWeakBlackened(body, old(color), color)
        invariant 0 <= i <= |tmudata| && Marking({})
        invariant old(done) <= done
        invariant forall j :: 0 <= j < i ==> tmudata[j] in done
        invariant color.Keys == old(color).Keys && forall r :: r in color && !old(color)[r].White? ==> !color[r].White?
        invariant old(UpvaluesDone(body, color, done, {})) ==> UpvaluesDone(body, color, done, {})
      {
        var u := tmudata[i];
        ghost var c1 := color;
        MarkAgainUserdata(u, live);
        NoWeakBlackenedMore(body, old(color), c1, color);
        i := i + 1;
      }
    }

    /** A userdata that waits for its finalizer may be marked, if left from the previous collection. */
    method MarkAgainUserdata(u: Ref, ghost live: iset<Ref>)
      requires Marking({}) && u in tmudata && u in body && body[u].Userdata?
      requires Within(body, color, live) && u in live
      modifies this`color, this`gray, this`done
      ensures Marking({}) && old(done) + {u} <= done
      ensures color.Keys == old(color).Keys && forall r :: r in color && !old(color)[r].White? ==> !color[r].White?
      ensures old(UpvaluesDone(body, color, done, {})) ==> UpvaluesDone(body, color, done, {})
      ensures Within(body, color, live)
      ensures NoWeakBlackened(body, old(color), color)
    {
      hide MarkPhase, Whites, Advanced, AllOk, StrongOk, UpvaluesDone, Within, NoWeakBlackened;
      InHeap(body, color, currentWhite, gray + grayagain + weak, tmudata, done, {}, u);
      BlackenedOne(body, color, u, White(currentWhite));
      Whitened(body, color, currentWhite, gray + grayagain + weak, tmudata, done, u);
      if UpvaluesDone(body, color, done, {}) {
        NoUpvalueRecolored(body, color, done, u, White(currentWhite));
        LessDone(body, color[u := White(currentWhite)], done, u);
      }
      WithinMarked(body, color, live, u, White(currentWhite));
      color := color[u := White(currentWhite)];
      done := done - {u};
      ghost var c1, g1, d1 := color, gray, done;
      ReallyMark(u, {}, live);
      AdvancedIsDarker(body, c1, g1, d1, color, gray, done);
      AdvancedBlackensNoWeak(body, c1, g1, d1, color, gray, done);
      NoWeakBlackenedMore(body, old(color), c1, color);
      UpvaluesStayDone(body, c1, g1, d1, color, gray, done, {});
      AllIsStrong(body, color, tmudata, u);
      Traversed(body, color, currentWhite, gray + grayagain + weak, tmudata, done, {}, u);
      if UpvaluesDone(body, color, done, {}) {
        MoreDone(body, color, done, done + {u}, {});
      }
      done := done + {u};
    }

    /** `iscleared`. */
    method IsCleared(v: Value, isKey: bool) returns (b: bool)
      requires v.Gco? ==> v.ref in body && v.ref in color
      modifies this`color
      ensures b == Clearable(body, old(color), finalized, v, isKey)
      ensures v.Gco? && body[v.ref].Userdata? && v.ref in finalized && !isKey ==> b
      ensures v.Gco? && !body[v.ref].TString? && old(color)[v.ref].White? ==> b
      ensures b ==> v.Gco? && !body[v.ref].TString?
      ensures b ==> old(color)[v.ref].White? || (body[v.ref].Userdata? && v.ref in finalized && !isKey)
      ensures forall r :: r in color && r in old(color) ==> color[r] == old(color)[r] || v == Gco(r)
      ensures StringsMarked(body, old(color), color) && (!b ==> Reached(color, v))
    {
      if !v.Gco? {
        return false;
      }
      if body[v.ref].TString? {
        if color[v.ref].White? {
          color := color[v.ref := Gray];
        }
        return false;
      }
      return color[v.ref].White? || (body[v.ref].Userdata? && !isKey && v.ref in finalized);
    }

    /** `cleartable` on one table of the list. */
    method ClearTable(h: Ref)
      requires body.Keys == color.Keys && h in body && body[h].Table? && (forall c :: Refers(body, h, c) ==> c in body)
      requires BitsMatch(body, weakKeys, weakValues, h) && StrongMarked(body, color, h)
      modifies this`body, this`color
      ensures h in body && body == old(body)[h := body[h]] &&
        Cleared(old(body), body, old(color), finalized, weakValues, h)
      ensures HoldsNoFinalized(body, finalized, h)
      ensures color.Keys == old(color).Keys && forall r :: r in color ==>
        color[r] == old(color)[r] || Refers(old(body), h, r)
      ensures StringsMarked(old(body), old(color), color) && AllMarked(body, color, h)
    {
      hide StringsMarked, Cleared, AllMarked, StrongMarked, BitsMatch, Reached, ClearedEntry, ClearedSlot, Refers;
      BitsOfTable(body, weakKeys, weakValues, h);
      ItsOwnReferences(body, color, h);
      ghost var body0, color0 := body, color;
      if h in weakValues {
        ClearArray(h);
      } else {
        NoStrings(body, color);
      }
      ghost var body1, color1 := body, color;
      ClearNodes(h);
      KeysOfMarked(body0, color0, color1);
      KeysOfMarked(body1, color1, color);
      ChangedAreReferences(body0, body1, color0, color1, color, h);
      ClearedTogether(body0, body1, body, color0, color1, color, finalized, weakKeys, weakValues, h);
      ClearedIsKind(body0, body, color0, finalized, weakValues, h);
      ClearedHoldsNoFinalized(body0, body, color0, finalized, weakKeys, weakValues, h);
    }

    method ClearArray(h: Ref)
      requires body.Keys == color.Keys && h in body && body[h].Table?
      requires forall i :: 0 <= i < |body[h].arr| && body[h].arr[i].Gco? ==> body[h].arr[i].ref in body
      modifies this`body, this`color
      ensures h in body && body == old(body)[h := body[h]] && body[h].Table? &&
        body[h] == old(body)[h].(arr := body[h].arr)
      ensures |body[h].arr| == |old(body)[h].arr| && StringsMarked(old(body), old(color), color) &&
        color.Keys == old(color).Keys
      ensures forall i :: 0 <= i < |body[h].arr| ==>
        Reached(color, body[h].arr[i]) && body[h].arr[i] == ClearedSlot(old(body), old(color), finalized,
          old(body)[h].arr[i])
      ensures forall r :: r in color ==> color[r] == old(color)[r] || Gco(r) in old(body)[h].arr
    {
      hide Clearable;
      ghost var body0, color0 := body, color;
      var arr := body[h].arr;
      var i := |arr|;
      while i > 0
        invariant body == body0 && 0 <= i <= |arr| == |body0[h].arr| && StringsMarked(body0, color0, color) &&
          arr[..i] == body0[h].arr[..i]
        invariant forall r :: r in color ==> color[r] == color0[r] || Gco(r) in body0[h].arr
        invariant forall j :: i <= j < |arr| ==>
          Reached(color, arr[j]) && arr[j] == ClearedSlot(body0, color0, finalized, body0[h].arr[j])
      {
        i := i - 1;
        assert arr[i] == body0[h].arr[i] && arr[i] in body0[h].arr;
        ghost var color1 := color;
        var clear := IsCleared(arr[i], false);
        ClearableStays(body0, body0, color0, color1, finalized, arr[i], false);
        StringsMarkedMore(body0, color0, color1, color);
        if clear {
          arr := arr[i := Nil];
        }
      }
      body := body[h := body[h].(arr := arr)];
    }

    /** The key is looked at first, and the value only if the key stays. */
    method IsEntryCleared(e: Entry, ghost color0: Colors) returns (b: bool)
      requires (e.key.Gco? ==> e.key.ref in body && e.key.ref in color) &&
        (e.val.Gco? ==> e.val.ref in body && e.val.ref in color) && StringsMarked(body, color0, color)
      modifies this`color
      ensures StringsMarked(body, color0, color)
      ensures b == (Clearable(body, color0, finalized, e.key, true) || Clearable(body, color0, finalized, e.val, false))
      ensures !b ==> Reached(color, e.key) && Reached(color, e.val)
      ensures color.Keys == old(color).Keys && forall r :: r in color && !old(color)[r].White? ==> !color[r].White?
      ensures forall r :: r in color ==> color[r] == old(color)[r] || e.key == Gco(r) || e.val == Gco(r)
    {
      hide Clearable;
      ghost var color1 := color;
      ClearableStays(body, body, color0, color1, finalized, e.key, true);
      b := IsCleared(e.key, true);
      StringsMarkedMore(body, color0, color1, color);
      if !b {
        ghost var color2 := color;
        ClearableStays(body, body, color0, color2, finalized, e.val, false);
        b := IsCleared(e.val, false);
        StringsMarkedMore(body, color0, color2, color);
      }
    }

    method ClearNodes(h: Ref)
      requires body.Keys == color.Keys && h in body && body[h].Table?
      requires forall i: nat :: LiveEntry(body[h].node, i) ==>
        (body[h].node[i].key.Gco? ==> body[h].node[i].key.ref in body) &&
          (body[h].node[i].val.Gco? ==> body[h].node[i].val.ref in body)
      modifies this`body, this`color
      ensures h in body && body == old(body)[h := body[h]] && body[h].Table? &&
        body[h] == old(body)[h].(node := body[h].node)
      ensures |body[h].node| == |old(body)[h].node| && StringsMarked(old(body), old(color), color)
      ensures forall i :: 0 <= i < |body[h].node| ==>
        body[h].node[i] == ClearedEntry(old(body), old(color), finalized, old(body)[h].node[i])
      ensures forall i: nat :: LiveEntry(body[h].node, i) ==>
        Reached(color, body[h].node[i].key) && Reached(color, body[h].node[i].val)
      ensures forall r :: r in color ==> color[r] == old(color)[r] || InEntries(old(body)[h].node, r)
    {
      hide Clearable;
      ghost var body0, color0 := body, color;
      var node := body[h].node;
      var i := |node|;
      while i > 0
        invariant body == body0 && 0 <= i <= |node| == |body0[h].node| && StringsMarked(body0, color0, color) &&
          node[..i] == body0[h].node[..i]
        invariant forall r :: r in color ==> color[r] == color0[r] || InEntries(body0[h].node, r)
        invariant forall j :: i <= j < |node| ==> node[j] == ClearedEntry(body0, color0, finalized, body0[h].node[j])
        invariant forall j: nat :: i <= j && LiveEntry(node, j) ==>
          Reached(color, node[j].key) && Reached(color, node[j].val)
      {
        i := i - 1;
        assert node[i] == body0[h].node[i];
        if node[i].val != Nil {
          assert LiveEntry(body0[h].node, i);
          var clear := IsEntryCleared(node[i], color0);
          if clear {
            node := node[i := node[i].(val := Nil)];
          }
        }
      }
      body := body[h := body[h].(node := node)];
    }

    /** `cleartable`. */
    method ClearWeak(ghost live: iset<Ref>)
      requires body.Keys == color.Keys && Whole(body) && Distinct(weak)
      requires forall h :: h in weak ==> BitsMatch(body, weakKeys, weakValues, h) && StrongMarked(body, color, h)
      requires Within(body, color, live) && forall h :: h in weak ==> h in color && !color[h].White?
      modifies this`body, this`color
      ensures ClearedSoFar(old(body), old(color), body, color, finalized, weakValues, weak, |weak|)
      ensures forall r :: r in color && !color[r].White? ==> Spared(old(body), live, r)
    {
      hide Spared, ClearedSoFar, AllMarked, StrongMarked, BitsMatch, Refers, Strongly, Cleared;
      ghost var body0, color0 := body, color;
      WeakAreLive(body, color, live, weak);
      ClearedNothing(body, color, finalized, weakValues, weak);
      var i := 0;
      while i < |weak|
        invariant forall r :: r in color && !color[r].White? ==> Spared(body0, live, r)
        invariant 0 <= i <= |weak| && ClearedSoFar(body0, color0, body, color, finalized, weakValues, weak, i)
      {
        ghost var body1, color1 := body, color;
        NextToClear(body0, color0, body, color, finalized, weakKeys, weakValues, weak, i);
        ClearTable(weak[i]);
        ClearedOneMore(body0, color0, body1, color1, body, color, finalized, weakValues, weak, i);
        KindsSoFar(body0, color0, body1, color1, finalized, weakValues, weak, i);
        StillSpared(body0, body1, color1, color, live, weak[i]);
        i := i + 1;
      }
    }

    /** What the collector marks from: the main thread and the running one, the registry, the
        metatables of basic types and the userdata that wait for their finalizers. */
    ghost function Roots(): set<Ref>
      reads this
    {
      RootsOf(mainthread, running, registry, mt, tmudata)
    }

    /** The marking that `atomic` does before it clears the weak tables. */
    method AtomicMark(ghost live: iset<Ref>)
      requires Marking({}) && gray == [] && AtomicLists(body, udata, tmudata, uvhead, running, mt)
      requires mainthread in color && !color[mainthread].White? && Reached(color, registry)
      requires Within(body, color, live)
      requires running in live && LiveValues(live, mt)
      requires FinalsWithin(live)
      modifies this`color, this`gray, this`grayagain, this`weak, this`weakKeys, this`weakValues, this`done, this`udata,
        this`tmudata, this`finalized
      ensures body.Keys == color.Keys == old(color).Keys && Whole(body) &&
        (forall r :: r in color ==> color[r] != White(!currentWhite))
      ensures forall r :: r in body && !color[r].White? ==> StrongMarked(body, color, r)
      ensures forall r :: r in body && !color[r].White? && r !in weak ==> AllMarked(body, color, r)
      ensures WeakAreListed(body, old(color), color, weak)
      ensures Distinct(weak) && forall h :: h in weak ==>
        h in color && !color[h].White? && BitsMatch(body, weakKeys, weakValues, h)
      ensures forall r :: r in old(Roots()) + Roots() ==> r in color && !color[r].White?
      ensures multiset(udata) + multiset(tmudata) == old(multiset(udata) + multiset(tmudata))
      ensures ProperMarks(body, color)
      ensures Within(body, color, live)
      ensures Separated(body, color, old(tmudata), old(finalized), udata, tmudata, finalized)
      ensures NoWeakBlackened(body, old(color), color)
    {
      hide Separated, MarkPhase, UpvaluesDone, AgainDone, WeakDone, StrongMarked, AllMarked, BitsMatch, AtomicLists,
        RootsOf, Darker, Ok, Reached, ValuesOk, LiveValues, Within, NoWeakBlackened, WeakAreListed;
      MarkAllAgain(live);
      assert gray + grayagain + weak == grayagain + weak;
      MarkedAll(body, color, currentWhite, grayagain, weak, tmudata, done, weakKeys, weakValues);
      GrayAreListed(body, old(color), color, weak);
    }

    /** The same; what has been traversed since the program ran last is in `done`. */
    method MarkAllAgain(ghost live: iset<Ref>)
      requires Marking({}) && gray == [] && AtomicLists(body, udata, tmudata, uvhead, running, mt)
      requires mainthread in color && !color[mainthread].White? && Reached(color, registry)
      requires Within(body, color, live) && running in live && LiveValues(live, mt) && FinalsWithin(live)
      modifies this`color, this`gray, this`grayagain, this`weak, this`weakKeys, this`weakValues, this`done, this`udata,
        this`tmudata, this`finalized
      ensures Marking({}) && gray == [] && color.Keys == old(color).Keys && Within(body, color, live)
      ensures UpvaluesDone(body, color, done, {}) && AgainDone(body, grayagain, done) &&
        WeakDone(body, weak, done, weakKeys, weakValues)
      ensures forall u :: u in tmudata ==> u in done && u in body && body[u].Userdata?
      ensures forall r :: r in old(Roots()) + Roots() ==> r in color && !color[r].White?
      ensures multiset(udata) + multiset(tmudata) == old(multiset(udata) + multiset(tmudata))
      ensures Separated(body, color, old(tmudata), old(finalized), udata, tmudata, finalized)
      ensures NoWeakBlackened(body, old(color), color)
    {
      hide Separated, MarkPhase, UpvaluesDone, AgainDone, WeakDone, AtomicLists, RootsOf, Darker, Ok, Reached, ValuesOk,
        LiveValues, Within, NoWeakBlackened;
      PhaseKeys(body, color, currentWhite, gray + grayagain + weak, tmudata, done, {});
      MarkAgain(live);
      ghost var c1 := color;
      RootsStayMarked(old(color), c1, mainthread, registry);
      FinishUserdata(live);
      NoWeakBlackenedMore(body, old(color), c1, color);
      RootsAreMarked(c1, color, mainthread, running, registry, mt, tmudata);
      RootsAreMarked(c1, color, mainthread, running, registry, mt, old(tmudata));
      PhaseKeys(body, color, currentWhite, gray + grayagain + weak, tmudata, done, {});
    }

    /** Marks again from upvalues, weak tables, the roots, threads and tables caught by barriers. */
    method MarkAgain(ghost live: iset<Ref>)
      requires Marking({}) && gray == [] && AtomicLists(body, udata, tmudata, uvhead, running, mt)
      requires Within(body, color, live)
      requires running in live && LiveValues(live, mt)
      modifies this`color, this`gray, this`grayagain, this`weak, this`weakKeys, this`weakValues, this`done
      ensures Marking({}) && gray == [] && Darker(old(color), color)
      ensures UpvaluesDone(body, color, done, {}) && AgainDone(body, grayagain, done) &&
        WeakDone(body, weak, done, weakKeys, weakValues)
      ensures running in color && !color[running].White? && ValuesOk(color, mt)
      ensures Within(body, color, live)
      ensures NoWeakBlackened(body, old(color), color)
    {
      hide MarkPhase, Whites, Advanced, UpvaluesDone, AgainDone, WeakDone, AtomicLists, ValuesOk, Darker, Within,
        NoWeakBlackened;
      OpenAreListed(body, udata, tmudata, uvhead, running, mt);
      PhaseKeys(body, color, currentWhite, gray + grayagain + weak, tmudata, done, {});
      NothingDone(body, color, currentWhite, gray + grayagain + weak, tmudata, done, {});
      done := {};
      ghost var c0 := color;
      RemarkOpen(live);
      PhaseKeys(body, color, currentWhite, gray + grayagain + weak, tmudata, done, {});
      ghost var c1, d1 := color, done;
      MarkRunning(live);
      WeakStaysDone(body, weak, d1, done, weakKeys, weakValues);
      ghost var c2 := color;
      DarkerIsTransitive(c0, c1, c2);
      NoWeakBlackenedMore(body, c0, c1, c2);
      PropagateAll(live);
      ghost var c3 := color;
      NoWeakBlackenedMore(body, c0, c2, c3);
      AgainToGray();
      PropagateAll(live);
      NoWeakBlackenedMore(body, c0, c3, color);
      DarkerIsTransitive(c2, c3, color);
      DarkerIsTransitive(c0, c2, color);
      ValuesStayOk(c2, color, mt);
      StaysMarked(c2, color, running);
    }

    /** Marks from upvalues, and makes the weak tables gray again. */
    method RemarkOpen(ghost live: iset<Ref>)
      requires Marking({}) && gray == [] && forall r :: r in body && body[r].IsOpen() ==> r in uvhead
      requires Within(body, color, live)
      modifies this`color, this`gray, this`grayagain, this`weak, this`weakKeys, this`weakValues, this`done
      ensures Marking({}) && weak == [] && Darker(old(color), color)
      ensures UpvaluesDone(body, color, done, {}) && WeakDone(body, weak, done, weakKeys, weakValues)
      ensures Within(body, color, live)
      ensures NoWeakBlackened(body, old(color), color)
    {
      hide MarkPhase, Whites, Advanced, UpvaluesDone, AgainDone, WeakDone, Darker, Within, NoWeakBlackened;
      ghost var c0, g0, d0 := color, gray, done;
      RemarkUpvals(live);
      AdvancedIsDarker(body, c0, g0, d0, color, gray, done);
      AdvancedBlackensNoWeak(body, c0, g0, d0, color, gray, done);
      ghost var c1 := color;
      PropagateAll(live);
      NoWeakBlackenedMore(body, c0, c1, color);
      DarkerIsTransitive(c0, c1, color);
      WeakToGray();
    }

    method MarkRunning(ghost live: iset<Ref>)
      requires Marking({}) && running in color && forall i :: 0 <= i < |mt| && mt[i].Gco? ==> mt[i].ref in color
      requires Within(body, color, live)
      requires running in live && LiveValues(live, mt)
      modifies this`color, this`gray, this`done
      ensures Marking({}) && Darker(old(color), color) && old(done) <= done
      ensures old(UpvaluesDone(body, color, done, {})) ==> UpvaluesDone(body, color, done, {})
      ensures !color[running].White? && ValuesOk(color, mt)
      ensures Within(body, color, live)
      ensures NoWeakBlackened(body, old(color), color)
    {
      hide MarkPhase, Whites, Advanced, UpvaluesDone, Darker, Within, NoWeakBlackened;
      ghost var c1, g1, d1 := color, gray, done;
      MarkValue(Gco(running), {}, live);
      AdvancedIsDarker(body, c1, g1, d1, color, gray, done);
      AdvancedBlackensNoWeak(body, c1, g1, d1, color, gray, done);
      UpvaluesStayDone(body, c1, g1, d1, color, gray, done, {});
      ghost var c2, g2, d2 := color, gray, done;
      MarkMt(live);
      AdvancedIsDarker(body, c2, g2, d2, color, gray, done);
      AdvancedBlackensNoWeak(body, c2, g2, d2, color, gray, done);
      NoWeakBlackenedMore(body, c1, c2, color);
      UpvaluesStayDone(body, c2, g2, d2, color, gray, done, {});
      DarkerIsTransitive(c1, c2, color);
      StaysMarked(c2, color, running);
    }

    /** The weak tables are to be traversed again. */
    method WeakToGray()
      requires Marking({}) && gray == []
      modifies this`gray, this`weak
      ensures Marking({}) && weak == [] && WeakDone(body, weak, done, weakKeys, weakValues)
    {
      hide MarkPhase;
      PhaseKeys(body, color, currentWhite, gray + grayagain + weak, tmudata, done, {});
      assert gray + grayagain + weak == grayagain + weak;
      Swapped(grayagain, weak);
      gray := weak;
      weak := [];
      assert gray + grayagain + weak == gray + grayagain;
      SameLists(body, color, currentWhite, grayagain + gray, gray + grayagain + weak, tmudata, done, {});
    }

    /** So are the threads and the tables caught by barriers. */
    method AgainToGray()
      requires Marking({}) && gray == []
      modifies this`gray, this`grayagain
      ensures Marking({}) && grayagain == [] && AgainDone(body, grayagain, done)
    {
      hide MarkPhase;
      assert gray + grayagain + weak == grayagain + weak;
      gray := grayagain;
      grayagain := [];
      assert gray + grayagain + weak == gray + weak;
    }

    /** Userdata to be finalized are kept, with all they refer to. */
    method FinishUserdata(ghost live: iset<Ref>)
      requires Marking({}) && gray == [] && AtomicLists(body, udata, tmudata, uvhead, running, mt)
      requires UpvaluesDone(body, color, done, {}) && AgainDone(body, grayagain, done) &&
        WeakDone(body, weak, done, weakKeys, weakValues)
      requires Within(body, color, live)
      requires FinalsWithin(live)
      modifies this`color, this`gray, this`grayagain, this`weak, this`weakKeys, this`weakValues, this`done, this`udata,
        this`tmudata, this`finalized
      ensures Marking({}) && gray == []
      ensures UpvaluesDone(body, color, done, {}) && AgainDone(body, grayagain, done) &&
        WeakDone(body, weak, done, weakKeys, weakValues)
      ensures color.Keys == old(color).Keys && forall r :: r in color && !old(color)[r].White? ==> !color[r].White?
      ensures forall u :: u in tmudata ==> u in done && u in body && body[u].Userdata? && u in color && !color[u].White?
      ensures multiset(udata) + multiset(tmudata) == old(multiset(udata) + multiset(tmudata))
      ensures forall u :: u in old(tmudata) ==> u in tmudata
      ensures Within(body, color, live)
      ensures Separated(body, color, old(tmudata), old(finalized), udata, tmudata, finalized)
      ensures NoWeakBlackened(body, old(color), color)
    {
      hide MarkPhase, UpvaluesDone, AgainDone, WeakDone, Within, Separated, NoWeakBlackened;
      PhaseKeys(body, color, currentWhite, gray + grayagain + weak, tmudata, done, {});
      ghost var d0 := done;
      QueueUserdata(live);
      ghost var c0 := color;
      MarkTmu(live);
      SeparatedStays(body, c0, color, old(tmudata), old(finalized), udata, tmudata, finalized);
      AgainStaysDone(body, grayagain, d0, done);
      WeakStaysDone(body, weak, d0, done, weakKeys, weakValues);
      ghost var c1 := color;
      PropagateAll(live);
      NoWeakBlackenedMore(body, old(color), c1, color);
      SeparatedStays(body, c1, color, old(tmudata), old(finalized), udata, tmudata, finalized);
      PhaseKeys(body, color, currentWhite, gray + grayagain + weak, tmudata, done, {});
    }

    /** Chooses the userdata that are to be finalized. */
    method QueueUserdata(ghost live: iset<Ref>)
      requires Marking({}) && AtomicLists(body, udata, tmudata, uvhead, running, mt) && FinalsWithin(live)
      modifies this`udata, this`tmudata, this`finalized
      ensures Marking({}) && Distinct(tmudata) && (forall u :: u in old(tmudata) ==> u in tmudata)
      ensures forall u :: u in tmudata ==> u in body && body[u].Userdata? && u in live
      ensures multiset(udata) + multiset(tmudata) == old(multiset(udata) + multiset(tmudata))
      ensures Separated(body, color, old(tmudata), old(finalized), udata, tmudata, finalized)
    {
      hide MarkPhase, Chosen, Passed, WhitesIn, Separated;
      PhaseKeys(body, color, currentWhite, gray + grayagain + weak, tmudata, done, {});
      ghost var u0 := udata + tmudata;
      PrefixDistinct(udata, tmudata);
      SeparateUdata();
      ChosenOrPassed(body, color, old(finalized), old(udata));
      NoneIsLost(body, color, old(finalized), old(udata));
      NowSeparated(body, color, old(tmudata), old(finalized), old(udata));
      assert multiset(udata + tmudata) == multiset(u0);
      PermutedDistinct(u0, udata + tmudata);
      assert forall u :: u in tmudata ==> u in udata + tmudata;
      SuffixDistinct(udata, tmudata);
    }

    /** The userdata that `luaC_separateudata` may choose. */
    ghost predicate FinalsWithin(live: iset<Ref>)
      reads this
    {
      FinalsIn(body, udata, tmudata, finalized, live)
    }

    ghost predicate Covers(live: iset<Ref>)
      reads this
    {
      CoversAt(Now(), finalized, live)
    }

    // ---------------------------------------------------------------- the program

    ghost function Now(): Snapshot
      reads this
    {
      Snapshot(gcstate, body, color, currentWhite, gray + grayagain + weak, tmudata, done, mainthread, running,
        registry, mt, fixed,
               strt, sweepstrgc, rootgc, udata, sweepgc, uvhead)
    }

    ghost predicate Valid()
      reads this
    {
      Good(Now()) && Condemned(doomed, body, color, currentWhite, fixed) && Disposed(udata, doomed, finalized)
    }

    /** Outside the sweep nothing that was dead is left. */
    lemma DoomedAreGone()
      requires Valid() && !Sweeping(Now())
      ensures forall r :: r in doomed ==> r !in body
      ensures Condemned(doomed, body, color, currentWhite, fixed)
    {
      hide Good;
      NothingIsDead(Now());
      HeapKeys();
      forall r | r in doomed ensures r !in body {
        assert r in body ==> DeadAt(Now(), r);
      }
    }

    /** While marking nothing is dead. */
    lemma NothingIsDoomed()
      requires Good(Now()) && !Sweeping(Now()) && forall r :: r in doomed ==> r !in body
      ensures Condemned(doomed, body, color, currentWhite, fixed)
    {
      hide Good;
      NothingIsDead(Now());
      forall r | r in body ensures !IsDead(color, currentWhite, fixed, r) {
        assert !DeadAt(Now(), r);
      }
    }

    /** `luaC_barrierf`, after `body0[o]` has become `b`, which refers to the white `v`. */
    method BarrierF(o: Ref, v: Ref, ghost body0: Bodies, ghost done0: set<Ref>, ghost b: Body)
      requires body == body0[o := b] && done == {} && Stored(body0, o, b, [Gco(v)]) && !b.Table? &&
        Alive(color, currentWhite, v)
      requires Safe(body0, color, currentWhite) && color[o].Black? && IsWhite(color, v)
      requires StateOk(gcstate, body0, color, currentWhite, gray + grayagain + weak, tmudata, done0, mainthread,
        registry, strt, sweepstrgc, rootgc + udata, sweepgc)
      modifies this`color, this`gray, this`done
      ensures StateOk(gcstate, body, color, currentWhite, gray + grayagain + weak, tmudata, done, mainthread, registry,
        strt, sweepstrgc, rootgc + udata, sweepgc)
      ensures Safe(body, color, currentWhite) && forall r :: Alive(old(color), currentWhite, r) <==>
        Alive(color, currentWhite, r)
      ensures done == {} && o in color && v in color && (color[o].Black? ==> !color[v].White?)
    {
      hide Stored, MarkPhase, StateOk, Safe, Advanced, Within;
      ghost var color0, gray0, all := color, gray, rootgc + udata;
      ghost var lists0 := gray + grayagain + weak;
      assert lists0 == gray0 + (grayagain + weak);
      if gcstate == GCSpropagate {
        StateIsMarking(gcstate, body0, color, currentWhite, lists0, tmudata, done0, mainthread, registry, strt,
          sweepstrgc, all, sweepgc);
        StoredWhileMarking(body0, color, currentWhite, lists0, tmudata, done0, o, b, [Gco(v)]);
        EveryoneIsWithin(body, color);
        ReallyMark(v, {o}, Everyone());
        assert gray + grayagain + weak == gray + (grayagain + weak);
        StillThere(body, color0, gray0, {}, color, gray, done);
        AfterForwardMarking(gcstate, body0, color0, color, currentWhite, gray0, gray, grayagain + weak, tmudata, done0,
          done, mainthread, registry, strt, sweepstrgc, all, sweepgc, o, b, Gco(v));
      } else {
        color := color[o := White(currentWhite)];
        AfterForward(gcstate, body0, color0, currentWhite, lists0, tmudata, done0, mainthread, registry, strt,
          sweepstrgc, all, sweepgc, o, b, [Gco(v)]);
      }
      done := {};
    }

    /** `luaC_barrierback`, after `body0[t]` has become `b`, which refers to the values in `vs`. */
    method BarrierBack(t: Ref, ghost body0: Bodies, ghost done0: set<Ref>, ghost b: Body, ghost vs: seq<Value>)
      requires body == body0[t := b] && Stored(body0, t, b, vs) && b.Table? && AliveValues(color, currentWhite, vs)
      requires Safe(body0, color, currentWhite) && t in color && color[t].Black?
      requires StateOk(gcstate, body0, color, currentWhite, gray + grayagain + weak, tmudata, done0, mainthread,
        registry, strt, sweepstrgc, rootgc + udata, sweepgc)
      modifies this`color, this`grayagain, this`done
      ensures StateOk(gcstate, body, color, currentWhite, gray + grayagain + weak, tmudata, done, mainthread, registry,
        strt, sweepstrgc, rootgc + udata, sweepgc)
      ensures Safe(body, color, currentWhite) && forall r :: Alive(old(color), currentWhite, r) <==>
        Alive(color, currentWhite, r)
      ensures color == old(color)[t := Gray]
    {
      hide Stored, MarkPhase, StateOk, Safe, AliveValues;
      ghost var color0, again0 := color, grayagain;
      color := color[t := Gray];
      grayagain := [t] + grayagain;
      done := {};
      AfterBack(gcstate, body0, color0, currentWhite, gray, again0, weak, tmudata, done0, mainthread, registry, strt,
        sweepstrgc, rootgc + udata, sweepgc, t, b, vs);
    }

    /** A store of `v` in the object at `o`, with the barrier for its type: `luaC_barriert` for tables
        and `luaC_barrier` for others. The new body may also refer to a key stored just before. */
    method Store(o: Ref, b: Body, v: Value, ghost vs: seq<Value>)
      requires Valid() && Stored(body, o, b, vs) && AliveValues(color, currentWhite, vs) && v in vs
      requires forall i :: 0 <= i < |vs| && vs[i] != v ==> b.Table? && (color[o].Black? ==> Reached(color, vs[i]))
      modifies this`body, this`color, this`gray, this`grayagain, this`done
      ensures Valid() && body == old(body)[o := b]
      ensures forall r :: Alive(old(color), currentWhite, r) <==> Alive(color, currentWhite, r)
      ensures o in color && (color[o].Black? ==> Reached(color, v))
    {
      hide Stored, StateOk, Safe, Linked, RootsAlive, FixedOk, AliveValues, Condemned, Disposed;
      ghost var body0, color0 := body, color;
      StoredHeap(body, color, currentWhite, rootgc, udata, tmudata, strt, uvhead, fixed, mainthread, o, b, vs);
      if v.Gco? && color[v.ref].White? && color[o].Black? {
        StoreWithBarrier(o, b, v.ref, vs);
      } else {
        NoBarrierNeeded(color, o, b, v, vs);
        StoreKeepsState(gcstate, body, color, currentWhite, gray + grayagain + weak, tmudata, done, mainthread,
          registry, strt, sweepstrgc, rootgc + udata, sweepgc, o, b, vs);
        body := body[o := b];
        done := {};
      }
      StillCondemned(doomed, body0, body, color0, color, currentWhite, fixed, o);
      RootsStayAlive(body0, body, color0, color, currentWhite, mainthread, running, registry, mt, tmudata);
    }

    /** A white value goes into a black object. */
    method StoreWithBarrier(o: Ref, b: Body, v: Ref, ghost vs: seq<Value>)
      requires Safe(body, color, currentWhite) && Stored(body, o, b, vs) && AliveValues(color, currentWhite, vs) &&
        Gco(v) in vs
      requires o in color && color[o].Black? && IsWhite(color, v) && forall i :: 0 <= i < |vs| && vs[i] != Gco(v) ==>
        b.Table?
      requires StateOk(gcstate, body, color, currentWhite, gray + grayagain + weak, tmudata, done, mainthread, registry,
        strt, sweepstrgc, rootgc + udata, sweepgc)
      modifies this`body, this`color, this`gray, this`grayagain, this`done
      ensures StateOk(gcstate, body, color, currentWhite, gray + grayagain + weak, tmudata, done, mainthread, registry,
        strt, sweepstrgc, rootgc + udata, sweepgc)
      ensures body == old(body)[o := b] && Safe(body, color, currentWhite)
      ensures forall r :: Alive(old(color), currentWhite, r) <==> Alive(color, currentWhite, r)
      ensures o in color && v in color && (color[o].Black? ==> !color[v].White?)
    {
      hide Stored, StateOk, Safe, AliveValues;
      ghost var body0, done0 := body, done;
      body := body[o := b];
      done := {};
      if b.Table? {
        BarrierBack(o, body0, done0, b, vs);
      } else {
        StoredOne(body0, o, b, vs, Gco(v));
        AliveOne(color, currentWhite, vs, Gco(v));
        BarrierF(o, v, body0, done0, b);
      }
    }

    /** What the program can use: a value that is no reference, or a reference to an object it can
        reach from the roots. */
    ghost predicate Held(v: Value)
      reads this
    {
      v.Gco? ==> Reachable(body, Roots(), v.ref)
    }

    /** Safety: what the program can reach is in the heap and is not dead. */
    lemma HeldIsAlive(v: Value)
      requires Valid() && Held(v)
      ensures AliveValue(color, currentWhite, v) && (v.Gco? ==> v.ref in body && v.ref in color)
    {
      hide StateOk, Linked, Safe, FixedOk;
      if v.Gco? {
        ReachableIsAlive(body, color, currentWhite, mainthread, running, registry, mt, tmudata, v.ref);
        KeysOfHeap(body, color, currentWhite);
      }
    }

    /** The program holds the threads, the registry and the metatables of basic types. */
    lemma RootsAreHeld()
      requires Valid()
      ensures Held(Gco(mainthread)) && Held(Gco(running)) && Held(registry)
      ensures forall i :: 0 <= i < |mt| ==> Held(mt[i])
    {
      hide Good, Reachable;
      forall v: Value | v.Gco? && v.ref in Roots() ensures Held(v) {
        RootIsHeld(v.ref);
      }
    }

    lemma RootIsHeld(r: Ref)
      requires Valid() && r in Roots()
      ensures Held(Gco(r))
    {
      hide StateOk, Linked, RootsOf, FixedOk;
      KeysOfHeap(body, color, currentWhite);
      assert Alive(color, currentWhite, r);
      assert Path(body, [r]) && [r][0] in Roots();
    }

    /** Whatever can be read from an object that the program holds is held, too, and so is in the heap and not dead:
        every field, weak or strong, and through an open upvalue the stack slot that it stands for. */
    lemma WhatIsReadIsHeld(r: Ref)
      requires Valid() && Held(Gco(r)) && r in body
      ensures match body[r]
        case TString => true
        case Table(meta, arr, node, _, _) =>
          && Held(meta) && (forall i :: 0 <= i < |arr| ==> Held(arr[i]))
          && forall i :: 0 <= i < |node| && node[i].val != Nil ==> Held(node[i].key) && Held(node[i].val)
        case Closure(env, slots) => Held(env) && forall i :: 0 <= i < |slots| ==> Held(slots[i])
        case Proto(slots) => forall i :: 0 <= i < |slots| ==> Held(slots[i])
        case Thread(globals, stack, _) => Held(globals) && forall i :: 0 <= i < |stack| ==> Held(stack[i])
        case UpVal(Closed(v)) => Held(v)
        case UpVal(Open(th, slot)) => th in body && body[th].Thread? && slot < |body[th].stack| ==>
          Held(body[th].stack[slot])
        case Userdata(meta, env) => Held(meta) && Held(env)
    {
      hide Good, Reachable, KeyRefers, ValueRefers;
      forall v: Value | v.Gco? && Refers(body, r, v.ref) ensures Held(v) {
        ReachableGoesOn(body, Roots(), r, v.ref);
      }
      if body[r].Table? {
        forall i | 0 <= i < |body[r].node| && body[r].node[i].val != Nil
          ensures Held(body[r].node[i].key) && Held(body[r].node[i].val)
        {
          EntryIsReferred(body[r].node, i);
        }
      }
    }

    /** `t[i] = v` in the array part (`luaV_settable`). */
    method SetArray(t: Ref, i: nat, v: Value)
      requires Valid() && Held(Gco(t)) && Held(v) && t in body && body[t].Table? && i < |body[t].arr|
      modifies this`body, this`color, this`gray, this`grayagain, this`done
      ensures Valid() && body == old(body)[t := old(body)[t].(arr := old(body)[t].arr[i := v])]
    {
      hide Valid, Held;
      HeldIsAlive(v);
      ArrayStored(body, t, i, v);
      Store(t, body[t].(arr := body[t].arr[i := v]), v, [v]);
    }

    /** `t[key] = v` in the hash part: `newkey` puts the key in a node and `luaV_settable` the value. */
    method SetEntry(t: Ref, i: nat, key: Value, v: Value)
      requires Valid() && Held(Gco(t)) && Held(key) && Held(v) && t in body && body[t].Table? && i < |body[t].node|
      requires !LiveEntry(body[t].node, i) || body[t].node[i].key == key
      modifies this`body, this`color, this`gray, this`grayagain, this`done
      ensures Valid() && body == old(body)[t := old(body)[t].(node := old(body)[t].node[i := Entry(key, v)])]
    {
      hide Valid, Held;
      HeldIsAlive(key);
      HeldIsAlive(v);
      ghost var body0 := body;
      if body[t].node[i].val == Nil {
        KeyStored(body, t, i, key);
        Store(t, body[t].(node := body[t].node[i := Entry(key, Nil)]), key, [key]);
        ValueStored(body, t, i, key, v);
        Store(t, body[t].(node := body[t].node[i := body[t].node[i].(val := v)]), v, [key, v]);
        assert body[t].node == body0[t].node[i := Entry(key, v)];
      } else {
        ValueReplaced(body, t, i, v);
        Store(t, body[t].(node := body[t].node[i := body[t].node[i].(val := v)]), v, [v]);
        assert body[t].node == body0[t].node[i := Entry(key, v)];
      }
      assert body == body0[t := body0[t].(node := body0[t].node[i := Entry(key, v)])];
    }

    /** `lua_setmetatable` on a table or a userdata. */
    method SetMetatable(o: Ref, meta: Value)
      requires Valid() && Held(Gco(o)) && Held(meta) && o in body && (body[o].Table? || body[o].Userdata?)
      modifies this`body, this`color, this`gray, this`grayagain, this`done
      ensures Valid() && body == old(body)[o := old(body)[o].(meta := meta)]
    {
      hide Valid, Held;
      HeldIsAlive(meta);
      Store(o, body[o].(meta := meta), meta, [meta]);
    }

    /** A metatable gets or loses its `__mode` or `__gc` field. */
    method SetMetafields(t: Ref, mode: Mode, gcTag: bool)
      requires Valid() && Held(Gco(t)) && t in body && body[t].Table?
      modifies this`body, this`color, this`gray, this`grayagain, this`done
      ensures Valid() && body == old(body)[t := old(body)[t].(mode := mode, gcTag := gcTag)]
    {
      hide Valid, Held;
      Store(t, body[t].(mode := mode, gcTag := gcTag), Plain, [Plain]);
    }

    /** `luaH_resize`: the entries move to parts of other sizes, which needs no barrier. */
    method ResizeTable(t: Ref, arr: seq<Value>, node: seq<Entry>)
      requires Valid() && t in body && body[t].Table? && MovedParts(body[t].arr, body[t].node, arr, node)
      modifies this`body, this`color, this`gray, this`grayagain, this`done
      ensures Valid() && body == old(body)[t := old(body)[t].(arr := arr, node := node)]
    {
      hide Valid;
      PartsStored(body, t, arr, node);
      Store(t, body[t].(arr := arr, node := node), Plain, [Plain]);
    }

    /** `lua_setfenv` on a function, a userdata or a thread, whose environment is its table of globals. */
    method SetEnv(o: Ref, env: Value)
      requires Valid() && Held(Gco(o)) && Held(env) && o in body && (body[o].Closure? || body[o].Userdata? ||
        body[o].Thread?)
      modifies this`body, this`color, this`gray, this`grayagain, this`done
      ensures Valid() && body == old(body)[o := if old(body)[o].Thread? then old(body)[o].(globals := env)
        else old(body)[o].(env := env)]
    {
      hide Valid, Held;
      HeldIsAlive(env);
      if body[o].Thread? {
        SetGlobals(o, env);
      } else {
        Store(o, body[o].(env := env), env, [env]);
      }
    }

    method SetGlobals(th: Ref, env: Value)
      requires Valid() && AliveValue(color, currentWhite, env) && th in body && body[th].Thread?
      modifies this`body, this`done
      ensures Valid() && body == WithGlobals(old(body), th, env)
    {
      hide Good;
      ghost var h := Now();
      body := WithGlobals(body, th, env);
      done := {};
      GlobalsChangedIsGood(h, Now(), th, env);
    }

    /** A slot of a C function or of a prototype (`lua_replace`, `addk`). */
    method SetSlot(o: Ref, i: nat, v: Value)
      requires Valid() && Held(Gco(o)) && Held(v) && o in body && (body[o].Closure? || body[o].Proto?) &&
        i < |body[o].slots|
      modifies this`body, this`color, this`gray, this`grayagain, this`done
      ensures Valid() && body == old(body)[o := old(body)[o].(slots := old(body)[o].slots[i := v])]
    {
      hide Valid, Held;
      HeldIsAlive(v);
      SlotStored(body, o, i, v);
      Store(o, body[o].(slots := body[o].slots[i := v]), v, [v]);
    }

    /** OP_SETUPVAL: the value is in the upvalue if it is closed, and in a stack if it is open; a
        barrier is needed only in the first case. */
    method SetUpvalue(uv: Ref, v: Value)
      requires Valid() && Held(Gco(uv)) && Held(v) && uv in body && body[uv].UpVal?
      modifies this`body, this`color, this`gray, this`grayagain, this`done
      ensures Valid()
      ensures old(body)[uv].v.Closed? ==> body == old(body)[uv := UpVal(Closed(v))]
      ensures old(body)[uv].IsOpen() ==> OpenAt(old(body), old(body)[uv].v.thread, uv)
      ensures old(body)[uv].IsOpen() ==>
        body == old(body)[old(body)[uv].v.thread := StackSlotSet(old(body), old(body)[uv].v.thread,
        old(body)[uv].v.slot, v)]
    {
      hide Valid, Held;
      HeldIsAlive(v);
      if body[uv].v.Closed? {
        Store(uv, UpVal(Closed(v)), v, [v]);
      } else {
        OpenIsThere(uv);
        SetStackSlot(body[uv].v.thread, body[uv].v.slot, v);
      }
    }

    lemma OpenIsThere(uv: Ref)
      requires Valid() && uv in body && body[uv].IsOpen()
      ensures OpenAt(body, body[uv].v.thread, uv)
    {
    }

    /** A store in a stack slot, which needs no barrier. */
    method SetStackSlot(th: Ref, i: nat, v: Value)
      requires Valid() && AliveValue(color, currentWhite, v) && th in body && body[th].Thread? && i < |body[th].stack|
      modifies this`body, this`done
      ensures Valid() && body == old(body)[th := StackSlotSet(old(body), th, i, v)]
    {
      hide StateOk, Safe, Linked, RootsAlive, FixedOk;
      SlotIsSafe(body, color, currentWhite, th, i, v);
      SlotRestacked(th, i, v);
      Restack(th, body[th].stack[i := v], v);
    }

    lemma SlotRestacked(th: Ref, i: nat, v: Value)
      requires Valid() && th in body && body[th].Thread? && i < |body[th].stack|
      ensures Restacked(body, th, body[th].stack[i := v], v)
    {
      assert OpenList(body, th);
      forall j | 0 <= j < |body[th].open| ensures SlotOf(body, body[th].open[j]) < |body[th].stack| {
        assert OpenAt(body, th, body[th].open[j]);
      }
    }

    method Restack(th: Ref, stack: seq<Value>, v: Value)
      requires Valid() && Restacked(body, th, stack, v) && AliveValue(color, currentWhite, v)
      requires Safe(WithStack(body, th, stack), color, currentWhite)
      modifies this`body, this`done
      ensures Valid() && body == WithStack(old(body), th, stack)
    {
      hide StateOk, Safe, Linked, RootsAlive, FixedOk, Restacked;
      ThreadOfStack(body, th, stack, v, fixed, mainthread);
      RestackedIsLinked(body, rootgc, udata, tmudata, strt, uvhead, th, stack, v);
      RestackKeepsState(gcstate, body, color, currentWhite, gray + grayagain + weak, tmudata, done, mainthread,
        registry, strt, sweepstrgc, rootgc + udata, sweepgc, th, stack, v);
      RootsStayAlive(body, WithStack(body, th, stack), color, color, currentWhite, mainthread, running, registry, mt,
        tmudata);
      body := WithStack(body, th, stack);
      done := {};
    }

    /** A value goes on top of a stack. */
    method Push(th: Ref, v: Value)
      requires Valid() && Alive(color, currentWhite, th) && AliveValue(color, currentWhite, v) && th in body &&
        body[th].Thread?
      modifies this`body, this`done
      ensures Valid() && body == WithStack(old(body), th, old(body)[th].stack + [v])
    {
      hide StateOk, Safe, Linked, RootsAlive, FixedOk;
      PushRestacked(th, v);
      RestackedIsSafe(body, color, currentWhite, th, body[th].stack + [v], v);
      Restack(th, body[th].stack + [v], v);
    }

    lemma PushRestacked(th: Ref, v: Value)
      requires Valid() && th in body && body[th].Thread?
      ensures Restacked(body, th, body[th].stack + [v], v)
    {
      assert OpenList(body, th);
      forall j | 0 <= j < |body[th].open| ensures SlotOf(body, body[th].open[j]) < |body[th].stack| {
        assert OpenAt(body, th, body[th].open[j]);
      }
    }

    /** The program puts a value that it holds on the stack of the running thread, or of one it holds. */
    method PushHeld(th: Ref, v: Value)
      requires Valid() && Held(Gco(th)) && Held(v) && th in body && body[th].Thread?
      modifies this`body, this`done
      ensures Valid() && body == WithStack(old(body), th, old(body)[th].stack + [v])
    {
      hide Valid, Held;
      HeldIsAlive(v);
      HeldIsAlive(Gco(th));
      Push(th, v);
    }

    /** The top of the stack goes down; upvalues open above must have been closed. */
    method Pop(th: Ref, n: nat)
      requires Valid() && Held(Gco(th)) && th in body && body[th].Thread? && n <= |body[th].stack|
      requires forall i :: 0 <= i < |body[th].open| ==> SlotOf(body, body[th].open[i]) < n
      modifies this`body, this`done
      ensures Valid() && body == WithStack(old(body), th, old(body)[th].stack[..n])
    {
      hide StateOk, Safe, Linked, RootsAlive, FixedOk, Held;
      HeldIsAlive(Gco(th));
      RestackedIsSafe(body, color, currentWhite, th, body[th].stack[..n], Nil);
      Restack(th, body[th].stack[..n], Nil);
    }

    /** Another thread runs. */
    method Resume(th: Ref)
      requires Valid() && Held(Gco(th)) && th in body && body[th].Thread?
      modifies this`running
      ensures Valid() && running == th
    {
      hide StateOk, Safe, Linked, FixedOk, Held;
      HeldIsAlive(Gco(th));
      running := th;
    }

    /** A metatable for a basic type; `atomic` marks it again, so there is no barrier. */
    method SetBasicMetatable(i: nat, v: Value)
      requires Valid() && Held(v) && i < |mt|
      modifies this`mt
      ensures Valid() && mt == old(mt)[i := v]
    {
      hide StateOk, Safe, Linked, FixedOk, Held;
      HeldIsAlive(v);
      mt := mt[i := v];
    }

    // ---------------------------------------------------------------- new objects

    /** A new object refers only to what the program holds. */
    ghost predicate OnlyHeld(o: Ref, b: Body)
      requires o !in body
      reads this
    {
      forall c :: Refers(body[o := b], o, c) ==> c != o && Held(Gco(c))
    }

    /** `luaC_link` for a new object, which goes on the stack of the running thread. */
    method NewObject(o: Ref, b: Body)
      requires Valid() && o !in body && Rooted(b) && !b.Userdata? && (b.Thread? ==> b.open == []) && OnlyHeld(o, b)
      modifies this`body, this`color, this`rootgc, this`sweepgc, this`fixed, this`weakKeys, this`weakValues,
        this`finalized, this`doomed, this`done
      ensures Valid() && body == WithStack(old(body)[o := b], running, old(body)[running].stack + [Gco(o)])
    {
      hide Good, Created, OnlyHeld;
      HeldAreAlive(o, b);
      RunningIsAlive();
      Link(o, b);
      RunningIsAlive();
      Push(running, Gco(o));
    }

    /** `luaC_link`. */
    method Link(o: Ref, b: Body)
      requires Valid() && Rooted(b) && !b.Userdata? && Created(body, color, currentWhite, o, b)
      modifies this`body, this`color, this`rootgc, this`sweepgc, this`fixed, this`weakKeys, this`weakValues,
        this`finalized, this`doomed, this`done
      ensures Valid() && body == old(body)[o := b] && color == old(color)[o := White(currentWhite)]
    {
      hide Good, Created;
      ghost var h := Now();
      Register(o, b);
      rootgc := [o] + rootgc;
      sweepgc := Shifted(sweepgc, 0);
      LinkingIsGood(h, Now(), o, b, 0);
    }

    /** The mark bits of a new object. */
    method Register(o: Ref, b: Body)
      modifies this`body, this`color, this`fixed, this`weakKeys, this`weakValues, this`finalized, this`doomed, this`done
      ensures body == old(body)[o := b] && color == old(color)[o := White(currentWhite)] && fixed == old(fixed) - {o} &&
        done == {}
      ensures finalized == old(finalized) - {o} && doomed == old(doomed) - {o}
    {
      body := body[o := b];
      color := color[o := White(currentWhite)];
      fixed := fixed - {o};
      weakKeys := weakKeys - {o};
      weakValues := weakValues - {o};
      finalized := finalized - {o};
      done := {};
      doomed := doomed - {o};
    }

    lemma HeldAreAlive(o: Ref, b: Body)
      requires Valid() && o !in body && Rooted(b) && (b.Thread? ==> b.open == []) && OnlyHeld(o, b)
      ensures Created(body, color, currentWhite, o, b)
    {
      hide Good, Held;
      HeapKeys();
      forall c | Refers(body[o := b], o, c) ensures Alive(color, currentWhite, c) {
        HeldIsAlive(Gco(c));
      }
    }

    lemma HeapKeys()
      requires Valid()
      ensures body.Keys == color.Keys
    {
    }

    lemma RunningIsAlive()
      requires Valid()
      ensures running in body && body[running].Thread? && Alive(color, currentWhite, running)
    {
    }

    /** `luaS_newudata`. */
    method NewUserdata(o: Ref, env: Value)
      requires Valid() && o !in body && Held(env)
      modifies this`body, this`color, this`udata, this`sweepgc, this`fixed, this`weakKeys, this`weakValues,
        this`finalized, this`doomed, this`done
      ensures Valid() && body == WithStack(old(body)[o := Userdata(Nil, env)], running,
        old(body)[running].stack + [Gco(o)])
    {
      hide Good, Held, Created;
      RunningIsAlive();
      HeldIsAlive(env);
      HeapKeys();
      UserdataCreated(body, color, currentWhite, o, env);
      LinkUserdata(o, Userdata(Nil, env));
      RunningIsAlive();
      Push(running, Gco(o));
    }

    /** Userdata are linked after the main thread. */
    method LinkUserdata(o: Ref, b: Body)
      requires Valid() && b.Userdata? && Created(body, color, currentWhite, o, b)
      modifies this`body, this`color, this`udata, this`sweepgc, this`fixed, this`weakKeys, this`weakValues,
        this`finalized, this`doomed, this`done
      ensures Valid() && body == old(body)[o := b] && color == old(color)[o := White(currentWhite)]
    {
      hide Good, Created;
      ghost var h := Now();
      Register(o, b);
      udata := [o] + udata;
      sweepgc := Shifted(sweepgc, |rootgc|);
      LinkingIsGood(h, Now(), o, b, 0);
    }

    /** `newlstr`: a new string in a bucket of the string table. */
    method NewString(o: Ref, h: nat)
      requires Valid() && o !in body && h < |strt|
      modifies this`body, this`color, this`strt, this`fixed, this`weakKeys, this`weakValues, this`finalized,
        this`doomed, this`done
      ensures Valid() && body == WithStack(old(body)[o := TString], running, old(body)[running].stack + [Gco(o)])
    {
      hide Good;
      RunningIsAlive();
      HeapKeys();
      LinkString(o, h);
      RunningIsAlive();
      Push(running, Gco(o));
    }

    method LinkString(o: Ref, h: nat)
      requires Valid() && Created(body, color, currentWhite, o, TString) && h < |strt|
      modifies this`body, this`color, this`strt, this`fixed, this`weakKeys, this`weakValues, this`finalized,
        this`doomed, this`done
      ensures Valid() && body == old(body)[o := TString] && color == old(color)[o := White(currentWhite)]
    {
      hide Good, Created;
      ghost var h0 := Now();
      Register(o, TString);
      strt := strt[h := [o] + strt[h]];
      LinkingIsGood(h0, Now(), o, TString, h);
    }

    /** `luaS_resize`, which does nothing while the sweep is among the strings. */
    method ResizeStrings(buckets: seq<seq<Ref>>)
      requires Valid() && SameStrings(strt, buckets)
      modifies this`strt
      ensures Valid() && strt == if gcstate == GCSsweepstring then old(strt) else buckets
    {
      hide Good, SameStrings, Condemned, Disposed;
      if gcstate != GCSsweepstring {
        ghost var h := Now();
        strt := buckets;
        RehashedIsGood(h, Now());
      }
    }

    /** `luaS_newlstr` finds the string: it may be dead. */
    method FindString(h: nat, r: Ref)
      requires Valid() && h < |strt| && r in strt[h]
      modifies this`body, this`color, this`doomed, this`done
      ensures Valid() && body == WithStack(old(body), running, old(body)[running].stack + [Gco(r)])
    {
      hide Good;
      BucketsHoldStrings(h, r);
      HeapKeys();
      if color[r] == White(!currentWhite) {
        ChangeWhite(running, r);
      }
      RunningIsAlive();
      Push(running, Gco(r));
    }

    lemma BucketsHoldStrings(h: nat, r: Ref)
      requires Valid() && h < |strt| && r in strt[h]
      ensures r in body && body[r].TString?
    {
    }

    /** `changewhite`. */
    method ChangeWhite(ghost th: Ref, r: Ref)
      requires Valid() && r in body && r in color && color[r] == White(!currentWhite)
      requires body[r].TString? || (OpenAt(body, th, r) && Alive(color, currentWhite, th))
      modifies this`color, this`doomed, this`done
      ensures Valid() && color == old(color)[r := White(currentWhite)] && doomed == old(doomed) - {r}
    {
      hide Good;
      ghost var h := Now();
      color := color[r := White(currentWhite)];
      done := {};
      doomed := doomed - {r};
      ResurrectedIsGood(h, Now(), th, r);
    }

    // ---------------------------------------------------------------- upvalues

    /** `luaF_findupval` on the running thread: the upvalue open on a slot, or a new one at `n`. */
    method FindUpval(level: nat, n: Ref) returns (uv: Ref)
      requires Valid() && level < |body[running].stack| && n !in body
      modifies this`body, this`color, this`uvhead, this`fixed, this`weakKeys, this`weakValues, this`finalized,
        this`doomed, this`done
      ensures Valid() && OpenAt(body, running, uv) && SlotOf(body, uv) == level && Alive(color, currentWhite, uv)
      ensures forall r :: r in old(body) ==> r in body && (r != running ==> body[r] == old(body)[r])
      ensures body[running].stack == old(body)[running].stack && (uv == n || (uv in old(body) && body == old(body)))
      ensures forall r :: r in body ==> r in old(body) || r == n
      ensures forall r :: Alive(old(color), currentWhite, r) ==> Alive(color, currentWhite, r)
    {
      hide Good;
      RunningIsAlive();
      OpenListOf(running);
      HeapKeys();
      var open := body[running].open;
      var i := 0;
      while i < |open| && SlotOf(body, open[i]) >= level
        invariant 0 <= i <= |open| && forall j :: 0 <= j < i ==> SlotOf(body, open[j]) > level
      {
        assert OpenAt(body, running, open[i]);
        if body[open[i]].v.slot == level {
          uv := open[i];
          Revive(running, uv);
          return;
        }
        i := i + 1;
      }
      NewUpvalue(level, i, n);
      return n;
    }

    /** An upvalue that is needed again may be dead. */
    method Revive(th: Ref, uv: Ref)
      requires Valid() && OpenAt(body, th, uv) && Alive(color, currentWhite, th)
      modifies this`color, this`doomed, this`done
      ensures Valid() && Alive(color, currentWhite, uv) && forall r :: Alive(old(color), currentWhite, r) ==>
        Alive(color, currentWhite, r)
    {
      hide Good, Condemned;
      HeapKeys();
      if color[uv] == White(!currentWhite) {
        ChangeWhite(th, uv);
      }
    }

    lemma OpenListOf(th: Ref)
      requires Valid() && th in body && body[th].Thread?
      ensures OpenList(body, th) && forall i :: 0 <= i < |body[th].open| ==> body[th].open[i] in uvhead
    {
      assert OpenList(body, th);
      forall i | 0 <= i < |body[th].open| ensures body[th].open[i] in uvhead {
        assert OpenAt(body, th, body[th].open[i]);
      }
    }

    /** A new upvalue, linked at its place in the list of the thread and in the list of open upvalues. */
    method NewUpvalue(level: nat, i: nat, n: Ref)
      requires Valid() && n !in body && running in body && body[running].Thread? && level < |body[running].stack| &&
        i <= |body[running].open|
      requires forall j :: 0 <= j < i ==> SlotOf(body, body[running].open[j]) > level
      requires i < |body[running].open| ==> SlotOf(body, body[running].open[i]) < level
      modifies this`body, this`color, this`uvhead, this`fixed, this`weakKeys, this`weakValues, this`finalized,
        this`doomed, this`done
      ensures Valid() && body == Opened(old(body), running, level, i, n) &&
        color == old(color)[n := White(currentWhite)]
    {
      hide Good;
      RunningIsAlive();
      HeapKeys();
      OpenListOf(running);
      ghost var h := Now();
      LinkOpen(level, i, n);
      OpeningIsGood(h, Now(), running, level, i, n);
    }

    method LinkOpen(level: nat, i: nat, n: Ref)
      requires running in body && body[running].Thread? && n !in body && i <= |body[running].open|
      modifies this`body, this`color, this`uvhead, this`fixed, this`weakKeys, this`weakValues, this`finalized,
        this`doomed, this`done
      ensures body == Opened(old(body), running, level, i, n) && color == old(color)[n := White(currentWhite)]
      ensures uvhead == [n] + old(uvhead) && fixed == old(fixed) - {n} && done == {} && doomed == old(doomed) - {n} &&
        finalized == old(finalized) - {n}
    {
      Register(n, UpVal(Open(running, level)));
      body := body[running := body[running].(open := body[running].open[..i] + [n] + body[running].open[i..])];
      uvhead := [n] + uvhead;
    }

    /** `luaF_close`: closes the upvalues at or above a level. */
    method Close(th: Ref, level: nat)
      requires Valid() && Held(Gco(th)) && th in body && body[th].Thread?
      modifies this`body, this`color, this`uvhead, this`rootgc, this`sweepgc, this`gray, this`done
      ensures th in body && body[th].Thread? && |body[th].open| <= |old(body)[th].open|
      ensures Valid() && ClosedUpTo(old(Now()), Now(), th, |old(body)[th].open| - |body[th].open|)
      ensures forall i :: 0 <= i < |old(body)[th].open| ==>
        (SlotOf(old(body), old(body)[th].open[i]) >= level <==> i < |old(body)[th].open| - |body[th].open|)
      ensures forall i :: 0 <= i < |old(body)[th].open| - |body[th].open| ==>
        HasItsSlot(old(Now()), th, old(body)[th].open[i], body)
    {
      hide Good, Held, ClosedUpTo, HasItsSlot;
      HeldIsAlive(Gco(th));
      ghost var h := Now();
      OpenIsListed(h, th);
      CloseFrom(th, level);
      ClosedWithItsSlot(h, Now(), th, |h.body[th].open| - |body[th].open|);
    }

    /** The same for a thread that may be dead. */
    method CloseFrom(th: Ref, level: nat)
      requires Valid() && th in body && body[th].Thread?
      modifies this`body, this`color, this`uvhead, this`rootgc, this`sweepgc, this`gray, this`done
      ensures th in body && body[th].Thread? && |body[th].open| <= |old(body)[th].open|
      ensures Valid() && ClosedUpTo(old(Now()), Now(), th, |old(body)[th].open| - |body[th].open|)
      ensures forall i :: 0 <= i < |old(body)[th].open| ==>
        (SlotOf(old(body), old(body)[th].open[i]) >= level <==> i < |old(body)[th].open| - |body[th].open|)
      ensures |body| - sweepgc <= |old(body)| - old(sweepgc) && (forall x :: x in old(rootgc) ==> x in rootgc)
      ensures gcstate != GCSpropagate ==> th in old(color) && th in color && color[th] == old(color)[th]
    {
      hide Good, SlotOf, Condemned, Disposed, RoundsClosed, ClosedUpTo, OpenList;
      HeapKeys();
      ghost var h0, n := Now(), 0;
      NoRounds(th, level);
      while body[th].open != [] && SlotOf(body, body[th].open[0]) >= level
        invariant Valid() && th in body && body[th].Thread? && RoundsClosed(h0, Now(), th, level, n)
        invariant |body| - sweepgc <= |old(body)| - old(sweepgc) && forall x :: x in old(rootgc) ==> x in rootgc
        invariant gcstate != GCSpropagate ==> th in old(color) && th in color && color[th] == old(color)[th]
        decreases |body[th].open|
      {
        ghost var h := Now();
        CloseFirst(th);
        OneMoreRound(h0, h, Now(), th, level, n);
        n := n + 1;
      }
      LevelReached(h0, Now(), th, level, n);
    }

    lemma NoRounds(th: Ref, level: nat)
      requires Valid() && th in body && body[th].Thread?
      ensures RoundsClosed(Now(), Now(), th, level, 0)
    {
      hide Good, OpenList;
      OpenListOf(th);
      NothingClosed(Now(), th);
    }

    lemma SurviveNothing()
      requires Valid()
      ensures Survive(Now(), Now())
    {
      hide Good, ValueOf;
      HeapKeys();
    }

    /** Where an upvalue is in the doubly linked list of open upvalues. */
    method Position(uv: Ref) returns (k: nat)
      requires uv in uvhead
      ensures k < |uvhead| && uvhead[k] == uv
    {
      k := 0;
      while uvhead[k] != uv
        invariant k < |uvhead| && uv in uvhead[k..]
        decreases |uvhead| - k
      {
        k := k + 1;
      }
    }

    /** One round of `luaF_close`: the first open upvalue is freed if it is dead, and closed otherwise. */
    method CloseFirst(th: Ref)
      requires Valid() && th in body && body[th].Thread? && body[th].open != []
      modifies this`body, this`color, this`uvhead, this`rootgc, this`sweepgc, this`gray, this`done
      ensures th in body && body[th].Thread? && |body[th].open| == |old(body)[th].open| - 1
      ensures Valid() && ClosedUpTo(old(Now()), Now(), th, 1)
      ensures |body| - sweepgc <= |old(body)| - old(sweepgc) && (forall x :: x in old(rootgc) ==> x in rootgc)
      ensures gcstate != GCSpropagate ==> th in old(color) && th in color && color[th] == old(color)[th]
    {
      hide Good, Survive, ClosedUpTo;
      OpenListOf(th);
      HeapKeys();
      var uv := body[th].open[0];
      assert OpenAt(body, th, uv);
      if color[uv] == White(!currentWhite) {
        ghost var h := Now();
        var k := DropUpvalue(th, 0);
        FirstIsFreed(h, Now(), th, k);
      } else {
        CloseUpvalue(th);
      }
      ListIsShorter(old(Now()), Now(), th);
    }

    /** `luaF_freeupval`: a dead upvalue leaves its lists. */
    method DropUpvalue(th: Ref, i: nat) returns (ghost k: nat)
      requires Valid() && th in body && body[th].Thread? && i < |body[th].open|
      requires body[th].open[i] in body && body[th].open[i] in color && color[body[th].open[i]] == White(!currentWhite)
      modifies this`body, this`color, this`uvhead, this`done
      ensures Valid() && body == Unlinked(old(body), th, i) - {old(body)[th].open[i]} &&
        color == old(color) - {old(body)[th].open[i]}
      ensures old(body)[th].open[i] != th && Survive(old(Now()), Now()) && |body| < |old(body)|
      ensures DroppingUpvalue(old(Now()), Now(), th, i, k)
    {
      hide Good, Survive;
      OpenListOf(th);
      var uv := body[th].open[i];
      assert OpenAt(body, th, uv);
      var at := Position(uv);
      k := at;
      ghost var h := Now();
      UpvaluesAreThreads(h, uv);
      UnlinkedSize(body, th, i);
      UnlinkUpvalue(th, i, at);
      DroppedUpvalueIsGood(h, Now(), th, i, k);
      SurviveDroppingUpvalue(h, Now(), th, i, k);
    }

    method UnlinkUpvalue(th: Ref, i: nat, k: nat)
      requires th in body && body[th].Thread? && i < |body[th].open| && k < |uvhead| && uvhead[k] == body[th].open[i] &&
        DeadAt(Now(), uvhead[k])
      modifies this`body, this`color, this`uvhead, this`done
      ensures DroppingUpvalue(old(Now()), Now(), th, i, k)
    {
      var uv := uvhead[k];
      body := Unlinked(body, th, i) - {uv};
      color := color - {uv};
      uvhead := Removed(uvhead, k);
      done := {};
    }

    /** The value moves from the stack into the upvalue, which `luaC_linkupval` links in the root list. */
    method CloseUpvalue(th: Ref)
      requires Valid() && th in body && body[th].Thread? && body[th].open != []
      requires OpenAt(body, th, body[th].open[0]) && Alive(color, currentWhite, body[th].open[0])
      modifies this`body, this`color, this`uvhead, this`rootgc, this`sweepgc, this`gray, this`done
      ensures Valid() && body == ClosedFirst(old(body), th) && ClosedUpTo(old(Now()), Now(), th, 1)
      ensures |body| - sweepgc <= |old(body)| - old(sweepgc) && (forall x :: x in old(rootgc) ==> x in rootgc)
      ensures gcstate != GCSpropagate ==> th in old(color) && th in color && color[th] == old(color)[th]
    {
      hide Good, ClosedFirst, ClosedUpTo;
      OpenListOf(th);
      var uv := body[th].open[0];
      var k := Position(uv);
      UpvalueIsNotBlack(uv);
      if color[uv].Gray? && gcstate == GCSpropagate {
        CloseGray(th, k);
      } else {
        ghost var h := Now();
        ClosedKinds(body, th);
        SameSize(body, ClosedFirst(body, th));
        HeapKeys();
        LinkClosed(th, k, White(currentWhite));
        ClosingIsGood(h, Now(), th, k);
        FirstIsClosed(h, Now(), th, k, White(currentWhite));
      }
    }

    /** The upvalue moves from the list of its thread to the root list, with the mark `c`. */
    method LinkClosed(th: Ref, k: nat, c: Color)
      requires th in body && body[th].Thread? && body[th].open != [] && OpenAt(body, th, body[th].open[0])
      requires k < |uvhead| && uvhead[k] == body[th].open[0] && body[th].open[0] in color
      modifies this`body, this`color, this`uvhead, this`rootgc, this`sweepgc, this`done
      ensures Closing(old(Now()), Now(), th, k, c) && done == {}
    {
      hide ClosedFirst;
      var uv := body[th].open[0];
      body := ClosedFirst(body, th);
      uvhead := Removed(uvhead, k);
      rootgc := [uv] + rootgc;
      sweepgc := Shifted(sweepgc, 0);
      color := color[uv := c];
      done := {};
    }

    lemma UpvalueIsNotBlack(uv: Ref)
      requires Valid() && uv in body && body[uv].IsOpen()
      ensures uv in color && !color[uv].Black?
    {
      if gcstate == GCSpropagate {
        assert Linked(body, rootgc, udata, tmudata, strt, uvhead);
      }
    }

    /** In the mark phase a gray upvalue becomes black: closed upvalues need barriers. */
    method CloseGray(th: Ref, k: nat)
      requires Valid() && gcstate == GCSpropagate && th in body && body[th].Thread? && body[th].open != []
      requires OpenAt(body, th, body[th].open[0]) && body[th].open[0] in color && color[body[th].open[0]].Gray?
      requires k < |uvhead| && uvhead[k] == body[th].open[0]
      modifies this`body, this`color, this`uvhead, this`rootgc, this`sweepgc, this`gray, this`done
      ensures Valid() && body == ClosedFirst(old(body), th) && ClosedUpTo(old(Now()), Now(), th, 1)
      ensures |body| - sweepgc <= |old(body)| - old(sweepgc) && (forall x :: x in old(rootgc) ==> x in rootgc)
    {
      hide Good, ClosedUpTo, ClosedFirst, MarkPhase, Advanced, Within, Condemned;
      ghost var h := Now();
      var uv := body[th].open[0];
      DoomedAreGone();
      ClosingGray(h, th);
      ClosedKinds(body, th);
      SameSize(body, ClosedFirst(body, th));
      LinkClosed(th, k, Black);
      FinishClosing(uv, h, th, k);
    }

    method FinishClosing(uv: Ref, ghost h: Snapshot, ghost th: Ref, ghost k: nat)
      requires Good(h) && gcstate == GCSpropagate && Closing(h, Now(), th, k, Black) && uv == h.body[th].open[0] &&
        h.color[h.body[th].open[0]].Gray? && done == {}
      requires MarkPhase(body, color, currentWhite, gray + grayagain + weak, tmudata, {}, {h.body[th].open[0]})
      requires Disposed(udata, doomed, finalized) && forall r :: r in doomed ==> r !in body
      modifies this`color, this`gray, this`done
      ensures Valid() && ClosedUpTo(h, Now(), th, 1)
    {
      hide Disposed, Good, ClosedUpTo, ClosedFirst, MarkPhase, Advanced, Condemned;
      ClosedKinds(h.body, th);
      ghost var h1, gray1, rest := Now(), gray, grayagain + weak;
      assert gray + grayagain + weak == gray + rest;
      ghost var done1 := MarkClosed(uv);
      assert gray + grayagain + weak == gray + rest;
      ClosedGrayIsGood(h, h1, Now(), th, k, gray1, gray, rest, done1);
      FirstIsClosedGray(h, h1, Now(), th, k);
      NothingIsDoomed();
    }

    /** Marks the value of an upvalue that has just become black. */
    method MarkClosed(uv: Ref) returns (ghost done1: set<Ref>)
      requires MarkPhase(body, color, currentWhite, gray + grayagain + weak, tmudata, {}, {uv}) && done == {} &&
        uv in body && body[uv].UpVal?
      modifies this`color, this`gray, this`done
      ensures Advanced(body, old(color), old(gray), {}, color, gray, done1) && done == {}
      ensures MarkPhase(body, color, currentWhite, gray + grayagain + weak, tmudata, done1, {uv}) &&
        ValueOk(body, color, uv)
    {
      hide MarkPhase, Advanced, Within;
      References(body, color, currentWhite, gray + grayagain + weak, tmudata, done, {uv}, uv);
      EveryoneIsWithin(body, color);
      MarkValue(ValueOf(body, body[uv].v), {uv}, Everyone());
      done1 := done;
      done := {};
    }

    ghost predicate CaptureOk(c: Capture, o: Ref)
      reads this
    {
      match c
      case Local(level, spare) => running in body && body[running].Thread? && level < |body[running].stack| &&
        spare !in body && spare != o
      case Enclosing(uv) => Held(Gco(uv)) && uv in body && body[uv].UpVal?
    }

    /** The upvalue for a captured variable: the one that is open on its slot, or the one given. */
    ghost predicate Captured(c: Capture, v: Value)
      reads this
    {
      match c
      case Local(level, _) => v.Gco? && OpenAt(body, running, v.ref) && SlotOf(body, v.ref) == level
      case Enclosing(uv) => v == Gco(uv)
    }

    /** OP_CLOSURE: a closure captures local variables, as open upvalues, and upvalues of the function
        that creates it. Closures that capture the same variable share the upvalue. */
    method NewClosure(o: Ref, env: Value, proto: Value, captures: seq<Capture>)
      requires Valid() && o !in body && Held(env) && Held(proto)
      requires forall i :: 0 <= i < |captures| ==> CaptureOk(captures[i], o)
      requires DistinctFresh(captures)
      modifies this`body, this`color, this`uvhead, this`rootgc, this`sweepgc, this`fixed, this`weakKeys,
        this`weakValues, this`finalized, this`doomed, this`done
      ensures Valid() && o in body && body[o].Closure? && |body[o].slots| == |captures| + 1 &&
        body[o].slots[0] == proto && body[o].env == env
      ensures forall i :: 0 <= i < |captures| ==> Captured(captures[i], body[o].slots[i + 1])
    {
      hide Good, Held, Created, AliveValues, AliveValue, Captured, CaptureOk, StillToCapture;
      HeldIsAlive(env);
      HeldIsAlive(proto);
      CapturesAreAlive(captures, o);
      RunningIsAlive();
      OneValueAlive(color, currentWhite, proto);
      var slots := CaptureAll(captures, o, env, proto);
      HeapKeys();
      ClosureCreated(body, color, currentWhite, o, env, slots);
      LinkClosure(o, env, slots, captures);
    }

    method LinkClosure(o: Ref, env: Value, slots: seq<Value>, ghost captures: seq<Capture>)
      requires Valid() && o !in body && Created(body, color, currentWhite, o, Closure(env, slots)) &&
        |slots| == |captures| + 1
      requires running in body && body[running].Thread? && forall i :: 0 <= i < |captures| ==>
        Captured(captures[i], slots[i + 1])
      modifies this`body, this`color, this`rootgc, this`sweepgc, this`fixed, this`weakKeys, this`weakValues,
        this`finalized, this`doomed, this`done
      ensures Valid() && o in body && body[o] == Closure(env, slots)
      ensures forall i :: 0 <= i < |captures| ==> Captured(captures[i], slots[i + 1])
    {
      hide Good, Created;
      ghost var body0 := body;
      Link(o, Closure(env, slots));
      RunningIsAlive();
      Push(running, Gco(o));
      forall i | 0 <= i < |captures| ensures Captured(captures[i], slots[i + 1]) {
        assert old(Captured(captures[i], slots[i + 1]));
      }
    }

    method CaptureAll(captures: seq<Capture>, o: Ref, ghost env: Value, proto: Value) returns (slots: seq<Value>)
      requires Valid() && o !in body && running in body && body[running].Thread? && DistinctFresh(captures)
      requires AliveValue(color, currentWhite, env) && AliveValues(color, currentWhite, [proto])
      requires forall j :: 0 <= j < |captures| ==> StillToCapture(captures[j], o)
      modifies this`body, this`color, this`uvhead, this`fixed, this`weakKeys, this`weakValues, this`finalized,
        this`doomed, this`done
      ensures Valid() && o !in body && running in body && body[running].Thread?
      ensures AliveValue(color, currentWhite, env) && AliveValues(color, currentWhite, slots)
      ensures |slots| == |captures| + 1 && slots[0] == proto && forall j :: 0 <= j < |captures| ==>
        Captured(captures[j], slots[j + 1])
    {
      hide Good, AliveValues, AliveValue, Captured, StillToCapture;
      slots := [proto];
      var i := 0;
      while i < |captures|
        invariant 0 <= i <= |captures| && |slots| == i + 1 && slots[0] == proto && Valid() && o !in body &&
          running in body && body[running].Thread?
        invariant AliveValue(color, currentWhite, env) && AliveValues(color, currentWhite, slots)
        invariant forall j :: i <= j < |captures| ==> StillToCapture(captures[j], o)
        invariant forall j :: 0 <= j < i ==> Captured(captures[j], slots[j + 1])
      {
        var uv := Capture(captures, i, o, env, slots);
        slots := slots + [Gco(uv)];
        i := i + 1;
      }
    }

    ghost predicate StillToCapture(c: Capture, o: Ref)
      reads this
    {
      match c
      case Local(level, spare) => running in body && body[running].Thread? && level < |body[running].stack| &&
        spare !in body && spare != o
      case Enclosing(uv) => Alive(color, currentWhite, uv)
    }

    lemma CapturesAreAlive(captures: seq<Capture>, o: Ref)
      requires Valid() && forall i :: 0 <= i < |captures| ==> CaptureOk(captures[i], o)
      ensures forall i :: 0 <= i < |captures| ==> StillToCapture(captures[i], o)
    {
      hide Good, Held;
      forall i | 0 <= i < |captures| ensures StillToCapture(captures[i], o) {
        if captures[i].Enclosing? {
          HeldIsAlive(Gco(captures[i].uv));
        }
      }
    }

    /** The upvalue for one captured variable; what has been captured before stays. */
    method Capture(captures: seq<Capture>, i: nat, ghost o: Ref, ghost env: Value, ghost slots: seq<Value>)
        returns (uv: Ref)
      requires Valid() && i < |captures| && o !in body && running in body && body[running].Thread? &&
        DistinctFresh(captures)
      requires AliveValue(color, currentWhite, env) && AliveValues(color, currentWhite, slots) && |slots| == i + 1
      requires forall j :: i <= j < |captures| ==> StillToCapture(captures[j], o)
      requires forall j :: 0 <= j < i ==> Captured(captures[j], slots[j + 1])
      modifies this`body, this`color, this`uvhead, this`fixed, this`weakKeys, this`weakValues, this`finalized,
        this`doomed, this`done
      ensures Valid() && o !in body && running in body && body[running].Thread? &&
        body[running].stack == old(body)[running].stack
      ensures AliveValue(color, currentWhite, env) && AliveValues(color, currentWhite, slots + [Gco(uv)])
      ensures forall j :: i < j < |captures| ==> StillToCapture(captures[j], o)
      ensures forall j :: 0 <= j <= i ==> Captured(captures[j], (slots + [Gco(uv)])[j + 1])
    {
      hide Good;
      assert StillToCapture(captures[i], o);
      if captures[i].Local? {
        uv := FindUpval(captures[i].level, captures[i].spare);
        forall j | 0 <= j < i ensures Captured(captures[j], slots[j + 1]) {
          assert old(Captured(captures[j], slots[j + 1]));
        }
        forall j | i < j < |captures| ensures StillToCapture(captures[j], o) {
          assert old(StillToCapture(captures[j], o));
        }
      } else {
        uv := captures[i].uv;
      }
    }

    // ---------------------------------------------------------------- the collector

    /** `markroot`. */
    method MarkRoot(ghost live: iset<Ref>)
      requires Valid() && (gcstate == GCSpause || gcstate == GCSfinalize)
      requires Covers(live)
      modifies this`color, this`gray, this`grayagain, this`weak, this`done, this`gcstate
      ensures Valid() && gcstate == GCSpropagate && Survive(old(Now()), Now()) && Within(body, color, live)
      ensures NoWeakBlackened(body, old(color), color)
    {
      hide Good, Survive, MarkPhase, Within, Covers, Condemned, Sweeping;
      ghost var h := Now();
      MarkingMayBegin(live);
      MarkFirst(live);
      gcstate := GCSpropagate;
      MarkingIsGood(h);
    }

    /** `markroot` with the gray lists empty. */
    method MarkFirst(ghost live: iset<Ref>)
      requires MarkPhase(body, color, currentWhite, [], tmudata, {}, {}) && Within(body, color, live)
      requires mainthread in color && mainthread in body && body[mainthread].Thread? &&
        (registry.Gco? ==> registry.ref in color)
      requires forall i :: 0 <= i < |mt| && mt[i].Gco? ==> mt[i].ref in color
      requires mainthread in live && (registry.Gco? ==> registry.ref in live) && LiveValues(live, mt)
      modifies this`color, this`gray, this`grayagain, this`weak, this`done
      ensures Marking({}) && mainthread in color && !color[mainthread].White? && Reached(color, registry) &&
        Within(body, color, live)
      ensures NoWeakBlackened(body, old(color), color)
    {
      hide MarkPhase, Within, LiveValues, Reached;
      NoGray();
      MarkRoots(live);
      PhaseKeys(body, color, currentWhite, gray + grayagain + weak, tmudata, done, {});
    }

    lemma MarkingMayBegin(live: iset<Ref>)
      requires Valid() && (gcstate == GCSpause || gcstate == GCSfinalize) && Covers(live)
      ensures MarkPhase(body, color, currentWhite, [], tmudata, {}, {}) && Within(body, color, live) && forall r ::
        r in doomed ==> r !in body
      ensures mainthread in color && mainthread in body && body[mainthread].Thread? &&
        (registry.Gco? ==> registry.ref in color)
      ensures forall i :: 0 <= i < |mt| && mt[i].Gco? ==> mt[i].ref in color
      ensures mainthread in live && (registry.Gco? ==> registry.ref in live) && LiveValues(live, mt)
    {
      hide Good, MarkPhase, Within, Covers, Condemned;
      DoomedAreGone();
      MarkingCanStart(Now());
      MainIsThere();
      FirstWithin(live);
      RootsWithin(live);
    }

    /** Marking has gone on, or has just begun. */
    lemma MarkingIsGood(h: Snapshot)
      requires Good(h) && Marking({}) && gcstate == GCSpropagate && mainthread in color && !color[mainthread].White? &&
        Reached(color, registry)
      requires SameHeap(h, Now()) && Disposed(udata, doomed, finalized) && forall r :: r in doomed ==> r !in body
      ensures Valid() && Survive(h, Now())
    {
      hide Good, Survive, MarkPhase, Condemned;
      MarkedIsGood(h, Now());
      SurviveMarking(h, Now());
      NothingIsDoomed();
    }

    method NoGray()
      modifies this`gray, this`grayagain, this`weak, this`done
      ensures gray + grayagain + weak == [] && done == {}
    {
      gray, grayagain, weak := [], [], [];
      done := {};
    }

    /** Before the marking begins, only userdata that wait for their finalizers may be marked. */
    lemma FirstWithin(live: iset<Ref>)
      requires Valid() && (gcstate == GCSpause || gcstate == GCSfinalize) && Covers(live)
      ensures Within(body, color, live)
    {
      hide HeapOk, RootsAlive;
      assert forall u :: u in tmudata ==> u in live;
    }

    lemma RootsWithin(live: iset<Ref>)
      requires Covers(live)
      ensures mainthread in live && running in live && (registry.Gco? ==> registry.ref in live) &&
        LiveValues(live, mt) && FinalsWithin(live)
    {
      hide ClosedUnder;
      assert mainthread in Roots() && running in Roots() && (registry.Gco? ==> registry.ref in Roots());
      forall i | 0 <= i < |mt| && mt[i].Gco? ensures mt[i].ref in live {
        assert mt[i].ref in Roots();
      }
    }

    lemma EveryoneIsCovered()
      ensures Covers(Everyone()) && Within(body, color, Everyone())
    {
    }

    lemma MainIsThere()
      requires Valid()
      ensures mainthread in body && body[mainthread].Thread?
    {
    }

    method MarkRoots(ghost live: iset<Ref>)
      requires Marking({}) && mainthread in color && mainthread in body && body[mainthread].Thread? &&
        (registry.Gco? ==> registry.ref in color)
      requires forall i :: 0 <= i < |mt| && mt[i].Gco? ==> mt[i].ref in color
      requires Within(body, color, live)
      requires mainthread in live && (registry.Gco? ==> registry.ref in live) && LiveValues(live, mt)
      modifies this`color, this`gray, this`done
      ensures Marking({}) && !color[mainthread].White? && Reached(color, registry) && Darker(old(color), color)
      ensures Within(body, color, live)
      ensures NoWeakBlackened(body, old(color), color)
    {
      hide MarkPhase, Advanced, Whites, Within, NoWeakBlackened;
      References(body, color, currentWhite, gray + grayagain + weak, tmudata, done, {}, mainthread);
      ItsOwnReferences(body, color, mainthread);
      ghost var c0, g0, d0 := color, gray, done;
      MarkValue(Gco(mainthread), {}, live);
      AdvancedIsDarker(body, c0, g0, d0, color, gray, done);
      AdvancedBlackensNoWeak(body, c0, g0, d0, color, gray, done);
      ghost var c1, g1, d1 := color, gray, done;
      LiveReferences(body, color, live, mainthread);
      MarkValue(body[mainthread].globals, {}, live);
      AdvancedIsDarker(body, c1, g1, d1, color, gray, done);
      ghost var c2, g2, d2 := color, gray, done;
      MarkValue(registry, {}, live);
      AdvancedIsDarker(body, c2, g2, d2, color, gray, done);
      AdvancedIsTransitive(body, c1, g1, d1, c2, g2, d2, color, gray, done);
      ghost var c3, g3, d3 := color, gray, done;
      MarkMt(live);
      AdvancedIsDarker(body, c3, g3, d3, color, gray, done);
      AdvancedIsTransitive(body, c1, g1, d1, c3, g3, d3, color, gray, done);
      AdvancedBlackensNoWeak(body, c1, g1, d1, color, gray, done);
      NoWeakBlackenedMore(body, c0, c1, color);
    }

    /** One step of the mark phase. */
    method PropagateStep(ghost live: iset<Ref>)
      requires Valid() && gcstate == GCSpropagate && gray != []
      requires Within(body, color, live)
      modifies this`color, this`gray, this`done, this`grayagain, this`weak, this`weakKeys, this`weakValues
      ensures Valid() && Survive(old(Now()), Now()) && |Whites(color)| + |gray| < |old(Whites(color))| + |old(gray)|
      ensures Within(body, color, live)
      ensures NoWeakBlackened(body, old(color), color)
    {
      hide Good, Survive, MarkPhase, Darker, Whites, Within, Condemned;
      ghost var h := Now();
      DoomedAreGone();
      ItIsMarking();
      PropagateMark(live);
      RootsStayMarked(h.color, color, mainthread, registry);
      MarkingIsGood(h);
    }

    lemma ItIsMarking()
      requires Valid() && gcstate == GCSpropagate
      ensures Marking({}) && mainthread in color && !color[mainthread].White? && Reached(color, registry)
    {
    }

    /** `atomic`: the end of the mark phase. What is still white is dead from now on: nothing that the
        roots reach by strong references, and nothing that live objects still refer to. */
    method Atomic(ghost live: iset<Ref>)
      requires Valid() && gcstate == GCSpropagate && gray == []
      requires Within(body, color, live) && Covers(live)
      modifies this`body, this`color, this`gray, this`grayagain, this`weak, this`weakKeys, this`weakValues, this`done,
        this`udata, this`tmudata, this`finalized, this`currentWhite, this`gcstate, this`sweepstrgc, this`sweepgc,
        this`doomed
      ensures Valid() && gcstate == GCSsweepstring && doomed == DeadOnes(body, color, currentWhite, fixed)
      ensures forall r :: StronglyReachable(old(body), old(Roots()) + FinalsOf(old(body), old(finalized)), r) ==>
        Alive(color, currentWhite, r)
      ensures forall h :: IsWeak(body, h) && Alive(color, currentWhite, h) && !IsBlack(old(color), h) ==>
        HoldsNoFinalized(body, finalized, h)
      ensures forall r :: r in body && Alive(color, currentWhite, r) ==> Spared(old(body), live, r)
      ensures SameKinds(old(body), body) && LostOnlyDead(old(body), body, color, currentWhite, finalized)
      ensures FinalsStay(old(Now()), old(finalized), Now(), finalized)
      ensures forall u :: u in FinalsOf(old(body), old(finalized)) ==>
        u !in doomed && (u in finalized ==> u in tmudata)
    {
      hide Good, AtomicMarked, Flipped, RootsOf, StronglyReachable, LostOnlyDead, SameKinds, Separated, FinalsStay,
        Disposed, IsWeak, HoldsNoFinalized, FinalsOf;
      ghost var h := Now();
      MarkBeforeClearing(live);
      ghost var h1, weak1, keys1, values1, finalized1 := Now(), weak, weakKeys, weakValues, finalized;
      ClearAndFlip(h, live);
      FlippedIsGood(h, h1, Now(), weak1, keys1, values1, finalized1);
      SameBodies(h, h1, weak1, keys1, values1);
      FinalsAreQueued(h, h1, Now(), weak1, values1, old(finalized), finalized, doomed);
      KeptIsAlive(h, h1, Now(), weak1, keys1, values1, old(finalized), finalized);
      AllArePurified(h, h1, Now(), weak1, keys1, values1, finalized);
      assert RootsAt(h) == old(Roots());
    }

    method MarkBeforeClearing(ghost live: iset<Ref>)
      requires Valid() && gcstate == GCSpropagate && gray == []
      requires Within(body, color, live) && Covers(live)
      modifies this`color, this`gray, this`grayagain, this`weak, this`weakKeys, this`weakValues, this`done, this`udata,
        this`tmudata, this`finalized
      ensures AtomicMarked(old(Now()), Now(), weak, weakKeys, weakValues) && Within(body, color, live)
      ensures Separated(body, color, old(tmudata), old(finalized), udata, tmudata, finalized)
    {
      hide Separated, Good, MarkPhase, StrongMarked, AllMarked, BitsMatch, RootsOf, AtomicLists, ProperMarks, Whole,
        Distinct, Condemned, Within, CoversAt, AtomicMarked, WeakAreListed;
      ghost var h := Now();
      ItIsMarking();
      RootsWithin(live);
      AtomicCanStart(h);
      AtomicMark(live);
      MarkedBeforeClearing(h, Now(), weak, weakKeys, weakValues);
    }

    method ClearAndFlip(ghost h: Snapshot, ghost live: iset<Ref>)
      requires AtomicMarked(h, Now(), weak, weakKeys, weakValues)
      requires Within(body, color, live)
      modifies this`body, this`color, this`currentWhite, this`sweepstrgc, this`sweepgc, this`gcstate, this`doomed,
        this`done
      ensures Flipped(old(Now()), Now(), weak, weakValues, finalized) && gcstate == GCSsweepstring
      ensures forall r :: r in body && Alive(color, currentWhite, r) ==> Spared(old(body), live, r)
      ensures doomed == DeadOnes(body, color, currentWhite, fixed)
    {
      hide AtomicMarked, Within, Spared, ClearedSoFar, StrongMarked, BitsMatch, Whole, Distinct;
      WeakCanBeCleared(h, Now(), weak, weakKeys, weakValues);
      ClearWeak(live);
      MarkedAreAlive(h, old(Now()), body, color, old(weak), weakKeys, weakValues, finalized);
      FlipWhite();
    }

    /** The other white becomes the current one, and the sweep begins. */
    method FlipWhite()
      modifies this`currentWhite, this`sweepstrgc, this`sweepgc, this`gcstate, this`doomed, this`done
      ensures currentWhite == !old(currentWhite) && sweepstrgc == 0 && sweepgc == 0 && gcstate == GCSsweepstring &&
        done == {}
      ensures doomed == DeadOnes(body, color, currentWhite, fixed)
    {
      currentWhite := !currentWhite;
      sweepstrgc := 0;
      sweepgc := 0;
      gcstate := GCSsweepstring;
      done := {};
      doomed := DeadOnes(body, color, currentWhite, fixed);
    }

    // ---------------------------------------------------------------- the sweep

    /** `makewhite` for a survivor of the sweep. */
    method MakeWhite(r: Ref)
      requires Valid() && Sweeping(Now()) && r in body && (Alive(color, currentWhite, r) || body[r].TString?) &&
        r !in doomed
      modifies this`color, this`done
      ensures Valid() && color == old(color)[r := White(currentWhite)] && Survive(old(Now()), Now())
    {
      hide Good, Survive;
      HeapKeys();
      ghost var h := Now();
      color := color[r := White(currentWhite)];
      done := {};
      WhitenIsGood(h, Now(), r);
      SurviveRecoloring(h, Now(), r, White(currentWhite));
    }

    /** `sweepwholelist` on one bucket of the string table. */
    method SweepBucket()
      requires Valid() && gcstate == GCSsweepstring
      modifies this`body, this`color, this`strt, this`sweepstrgc, this`gcstate, this`done
      ensures Valid() && Survive(old(Now()), Now())
      ensures gcstate == if sweepstrgc < |strt| then GCSsweepstring else GCSsweep
      ensures sweepstrgc == old(sweepstrgc) + 1 && |strt| == |old(strt)|
    {
      hide Good, Survive, WhiteAt;
      ghost var h0 := Now();
      SurviveNothing();
      BucketIsThere();
      var i := 0;
      while i < |strt[sweepstrgc]|
        invariant Valid() && gcstate == GCSsweepstring && sweepstrgc == old(sweepstrgc) < |strt| == |old(strt)| &&
          0 <= i <= |strt[sweepstrgc]|
        invariant forall j :: 0 <= j < i ==> WhiteAt(color, currentWhite, strt[sweepstrgc][j])
        invariant Survive(h0, Now())
        decreases |strt[sweepstrgc]| - i
      {
        ghost var h := Now();
        i := SweepString(i);
        SurviveMore(h0, h, Now());
      }
      BucketDone(h0);
    }

    /** One string of the bucket: it becomes white, or is freed. */
    method SweepString(i: nat) returns (i': nat)
      requires Valid() && gcstate == GCSsweepstring && sweepstrgc < |strt| && i < |strt[sweepstrgc]|
      requires forall j :: 0 <= j < i ==> WhiteAt(color, currentWhite, strt[sweepstrgc][j])
      modifies this`body, this`color, this`strt, this`done
      ensures Valid() && Survive(old(Now()), Now()) && |strt| == |old(strt)|
      ensures i' <= |strt[sweepstrgc]| && |strt[sweepstrgc]| - i' < |old(strt)[sweepstrgc]| - i
      ensures forall j :: 0 <= j < i' ==> WhiteAt(color, currentWhite, strt[sweepstrgc][j])
      ensures var r := old(strt)[sweepstrgc][i]; r in body <==> r !in doomed
    {
      hide Good, Survive;
      var r := strt[sweepstrgc][i];
      BucketsHoldStrings(sweepstrgc, r);
      HeapKeys();
      if color[r] != White(!currentWhite) || r in fixed {
        MakeWhite(r);
        i' := i + 1;
      } else {
        FreeString(sweepstrgc, i);
        i' := i;
      }
    }

    method BucketDone(ghost h0: Snapshot)
      requires Valid() && gcstate == GCSsweepstring && sweepstrgc < |strt| && Survive(h0, Now())
      requires forall j :: 0 <= j < |strt[sweepstrgc]| ==> WhiteAt(color, currentWhite, strt[sweepstrgc][j])
      modifies this`sweepstrgc, this`gcstate, this`done
      ensures Valid() && Survive(h0, Now())
      ensures gcstate == if sweepstrgc < |strt| then GCSsweepstring else GCSsweep
      ensures sweepstrgc == old(sweepstrgc) + 1
    {
      hide Good, Survive, WhiteAt;
      ghost var h := Now();
      sweepstrgc := sweepstrgc + 1;
      done := {};
      if sweepstrgc >= |strt| {
        gcstate := GCSsweep;
      }
      NextBucket(h, Now());
      SurviveAdvancing(h, Now(), gcstate, sweepstrgc, sweepgc);
      SurviveMore(h0, h, Now());
    }

    lemma BucketIsThere()
      requires Valid() && gcstate == GCSsweepstring
      ensures sweepstrgc < |strt|
    {
    }

    method FreeString(b: nat, i: nat)
      requires Valid() && gcstate == GCSsweepstring && b == sweepstrgc < |strt| && i < |strt[b]|
      requires strt[b][i] in body && body[strt[b][i]].TString? && strt[b][i] in color &&
        color[strt[b][i]] == White(!currentWhite)
      modifies this`body, this`color, this`strt, this`done
      ensures Valid() && strt == old(strt)[b := Removed(old(strt)[b], i)] && color == old(color) - {old(strt)[b][i]}
      ensures old(strt)[b][i] !in strt[b] && Survive(old(Now()), Now())
    {
      hide Good, Survive, DroppingString;
      ghost var h := Now();
      var r := strt[b][i];
      BucketIsDistinct(b);
      RemoveDistinct(strt[b], i);
      DropString(b, i);
      DroppedStringIsGood(h, Now(), b, i);
      SurviveDropping(h, Now(), r);
    }

    method DropString(b: nat, i: nat)
      requires b < |strt| && i < |strt[b]| && DeadAt(Now(), strt[b][i])
      modifies this`body, this`color, this`strt, this`done
      ensures DroppingString(old(Now()), Now(), b, i) && SameRest(old(Now()), Now())
      ensures strt == old(strt)[b := Removed(old(strt)[b], i)]
      ensures body == old(body) - {old(strt)[b][i]} && color == old(color) - {old(strt)[b][i]}
    {
      var r := strt[b][i];
      body := body - {r};
      color := color - {r};
      strt := strt[b := Removed(strt[b], i)];
      done := {};
    }

    lemma BucketIsDistinct(b: nat)
      requires Valid() && b < |strt|
      ensures Distinct(strt[b])
    {
    }

    /** The open upvalues of a thread are swept with it. */
    method SweepOpen(th: Ref)
      requires Valid() && gcstate == GCSsweep && th in body && body[th].Thread?
      modifies this`body, this`color, this`uvhead, this`done
      ensures Valid() && th in body && body[th].Thread? && Survive(old(Now()), Now())
      ensures forall i :: 0 <= i < |body[th].open| ==> WhiteAt(color, currentWhite, body[th].open[i])
      ensures th in old(color) && th in color && color[th] == old(color)[th] && |body| <= |old(body)|
    {
      hide Good, Survive, WhiteAt;
      ghost var h0 := Now();
      SurviveNothing();
      HeapKeys();
      var i := 0;
      while i < |body[th].open|
        invariant Valid() && th in body && body[th].Thread? && 0 <= i <= |body[th].open| && Survive(h0, Now())
        invariant forall j :: 0 <= j < i ==> WhiteAt(color, currentWhite, body[th].open[j])
        invariant th in color && color[th] == old(color)[th] && |body| <= |old(body)|
        decreases |body[th].open| - i
      {
        ghost var h := Now();
        i := SweepUpvalue(th, i);
        SurviveMore(h0, h, Now());
      }
    }

    /** One open upvalue: it becomes white, or is freed. */
    method SweepUpvalue(th: Ref, i: nat) returns (i': nat)
      requires Valid() && gcstate == GCSsweep && th in body && body[th].Thread? && th in color && i < |body[th].open|
      requires forall j :: 0 <= j < i ==> WhiteAt(color, currentWhite, body[th].open[j])
      modifies this`body, this`color, this`uvhead, this`done
      ensures Valid() && th in body && body[th].Thread? && Survive(old(Now()), Now())
      ensures i' <= |body[th].open| && |body[th].open| - i' < |old(body)[th].open| - i
      ensures forall j :: 0 <= j < i' ==> WhiteAt(color, currentWhite, body[th].open[j])
      ensures th in color && color[th] == old(color)[th] && |body| <= |old(body)|
    {
      hide Good, Survive, Disposed;
      OpenListOf(th);
      HeapKeys();
      var uv := body[th].open[i];
      assert OpenAt(body, th, uv);
      if color[uv] != White(!currentWhite) || uv in fixed {
        FixedAreNoUpvalues(uv);
        MakeWhite(uv);
        i' := i + 1;
      } else {
        FreeUpvalue(th, i);
        i' := i;
      }
    }

    method FreeUpvalue(th: Ref, i: nat)
      requires Valid() && th in body && body[th].Thread? && th in color && i < |body[th].open|
      requires OpenAt(body, th, body[th].open[i]) && body[th].open[i] in color &&
        color[body[th].open[i]] == White(!currentWhite)
      modifies this`body, this`color, this`uvhead, this`done
      ensures Valid() && th in body && body[th].Thread? && Survive(old(Now()), Now()) && |body| <= |old(body)|
      ensures body[th].open == Removed(old(body)[th].open, i) && |body[th].open| == |old(body)[th].open| - 1
      ensures forall j :: 0 <= j < i ==> body[th].open[j] == old(body)[th].open[j]
      ensures forall j, white :: 0 <= j < i && WhiteAt(old(color), white, old(body)[th].open[j]) ==>
        WhiteAt(color, white, old(body)[th].open[j])
      ensures th in color && color[th] == old(color)[th]
    {
      hide Good, Survive, DroppingUpvalue, Condemned, Disposed;
      OpenListOf(th);
      OpenIsDistinct(body, th);
      RemoveDistinct(body[th].open, i);
      UnlinkedSize(body, th, i);
      ghost var _ := DropUpvalue(th, i);
    }

    lemma FixedAreNoUpvalues(uv: Ref)
      requires Valid() && uv in body && body[uv].IsOpen()
      ensures uv !in fixed
    {
    }

    /** The next object of the root list: it becomes white, or is freed. */
    method SweepObject()
      requires Valid() && gcstate == GCSsweep && sweepgc < |rootgc + udata|
      modifies this`body, this`color, this`uvhead, this`rootgc, this`udata, this`sweepgc, this`gray, this`done
      ensures Valid() && Survive(old(Now()), Now())
      ensures var r := old((rootgc + udata)[sweepgc]); r in body <==> r !in doomed
      ensures |body| - sweepgc < |old(body)| - old(sweepgc)
    {
      hide Good, Survive, Condemned;
      ghost var h0 := Now();
      SurviveNothing();
      var curr := (rootgc + udata)[sweepgc];
      RootedIsThere(sweepgc);
      HeapKeys();
      if body[curr].Thread? {
        SweepOpen(curr);
      }
      ghost var h := Now();
      HeapKeys();
      KeepOrFree(curr);
      SurviveMore(h0, h, Now());
    }

    method KeepOrFree(curr: Ref)
      requires Valid() && gcstate == GCSsweep && sweepgc < |rootgc + udata| && curr == (rootgc + udata)[sweepgc] &&
        curr in body && curr in color
      requires body[curr].Thread? ==> forall i :: 0 <= i < |body[curr].open| ==>
        WhiteAt(color, currentWhite, body[curr].open[i])
      modifies this`body, this`color, this`uvhead, this`rootgc, this`udata, this`sweepgc, this`gray, this`done
      ensures Valid() && Survive(old(Now()), Now()) && (curr in body <==> curr !in doomed)
      ensures |body| - sweepgc < |old(body)| - old(sweepgc)
    {
      hide Good, Survive, Condemned;
      CondemnedIs(curr);
      if color[curr] != White(!currentWhite) || curr in fixed {
        KeepObject(curr);
      } else {
        FreeObject(curr);
      }
    }

    lemma CondemnedIs(r: Ref)
      requires Valid() && r in body && r in color
      ensures r in doomed <==> color[r] == White(!currentWhite) && r !in fixed
    {
      hide Good;
    }

    lemma RootedIsThere(i: nat)
      requires Valid() && i < |rootgc + udata|
      ensures (rootgc + udata)[i] in body && Rooted(body[(rootgc + udata)[i]])
    {
      assert (rootgc + udata)[i] in rootgc || (rootgc + udata)[i] in udata;
    }

    method KeepObject(curr: Ref)
      requires Valid() && gcstate == GCSsweep && sweepgc < |rootgc + udata| && curr == (rootgc + udata)[sweepgc] &&
        curr in body && curr in color
      requires color[curr] != White(!currentWhite) || curr in fixed
      requires body[curr].Thread? ==> forall i :: 0 <= i < |body[curr].open| ==>
        WhiteAt(color, currentWhite, body[curr].open[i])
      modifies this`color, this`sweepgc, this`done
      ensures Valid() && sweepgc == old(sweepgc) + 1 && Survive(old(Now()), Now())
    {
      hide Good, Survive;
      FixedIsAlive(curr);
      MakeWhite(curr);
      ghost var h := Now();
      sweepgc := sweepgc + 1;
      done := {};
      NextRoot(h, Now());
      SurviveAdvancing(h, Now(), GCSsweep, sweepstrgc, sweepgc);
      SurviveMore(old(Now()), h, Now());
    }

    lemma FixedIsAlive(curr: Ref)
      requires Valid() && curr in body && curr in color && (color[curr] != White(!currentWhite) || curr in fixed)
      ensures Alive(color, currentWhite, curr) || body[curr].TString?
    {
      RootsInHeap(Now());
    }

    /** `freeobj`: a thread closes its upvalues first. */
    method FreeObject(curr: Ref)
      requires Valid() && gcstate == GCSsweep && curr in rootgc + udata && curr in body && curr in color &&
        color[curr] == White(!currentWhite)
      modifies this`body, this`color, this`uvhead, this`rootgc, this`udata, this`sweepgc, this`gray, this`done
      ensures Valid() && Survive(old(Now()), Now()) && curr !in body
      ensures |body| - sweepgc < |old(body)| - old(sweepgc)
    {
      hide Good, Survive, ClosedUpTo;
      ghost var h0 := Now();
      if body[curr].Thread? {
        CloseAll(curr);
      }
      ghost var h := Now();
      var i := IndexInRoots(curr);
      FreeRoot(curr, i);
      if h0.body[curr].Thread? {
        SurviveFreeingThread(h0, h, Now(), curr);
      }
    }

    /** `luaE_freethread` closes what is still open on the stack. */
    method CloseAll(th: Ref)
      requires Valid() && gcstate == GCSsweep && th in body && body[th].Thread? && th in color &&
        color[th] == White(!currentWhite) && th in rootgc + udata
      modifies this`body, this`color, this`uvhead, this`rootgc, this`sweepgc, this`gray, this`done
      ensures Valid() && th in body && body[th].Thread? && body[th].open == []
      ensures th in color && color[th] == White(!currentWhite) && th in rootgc + udata
      ensures ClosedUpTo(old(Now()), Now(), th, |old(body)[th].open|)
      ensures |body| - sweepgc <= |old(body)| - old(sweepgc)
    {
      hide Good, ClosedUpTo;
      OpenListOf(th);
      CloseFrom(th, 0);
      EveryoneIsAbove(old(body), th);
      assert body[th].open != [] ==> SlotOf(old(body), old(body)[th].open[|old(body)[th].open| - 1]) >= 0;
    }

    /** Where an object is in the root list. */
    method IndexInRoots(r: Ref) returns (i: nat)
      requires r in rootgc + udata
      ensures i < |rootgc + udata| && (rootgc + udata)[i] == r
    {
      i := 0;
      while (rootgc + udata)[i] != r
        invariant i < |rootgc + udata| && r in (rootgc + udata)[i..]
        decreases |rootgc + udata| - i
      {
        i := i + 1;
      }
    }

    method FreeRoot(curr: Ref, i: nat)
      requires Valid() && gcstate == GCSsweep && i < |rootgc + udata| && (rootgc + udata)[i] == curr
      requires curr in body && curr in color && color[curr] == White(!currentWhite) &&
        (body[curr].Thread? ==> body[curr].open == [])
      modifies this`body, this`color, this`rootgc, this`udata, this`done
      ensures Valid() && Survive(old(Now()), Now()) && |body| == |old(body)| - 1 && curr !in body
    {
      hide Good, Survive;
      ghost var h := Now();
      NotYetSwept(i);
      FreedFromRoots(i);
      RemovedIsLess(body, curr);
      DropRoot(i);
      DroppedRootIsGood(h, Now(), i);
      SurviveDroppingThread(h, Now(), curr);
    }

    method DropRoot(i: nat)
      requires i < |rootgc + udata| && DeadAt(Now(), (rootgc + udata)[i])
      modifies this`body, this`color, this`rootgc, this`udata, this`done
      ensures DroppingRoot(old(Now()), Now(), i)
    {
      var r := (rootgc + udata)[i];
      body := body - {r};
      color := color - {r};
      if i < |rootgc| {
        rootgc := Removed(rootgc, i);
      } else {
        udata := Removed(udata, i - |rootgc|);
      }
      done := {};
    }

    lemma NotYetSwept(i: nat)
      requires Valid() && gcstate == GCSsweep && i < |rootgc + udata|
      requires (rootgc + udata)[i] in color && color[(rootgc + udata)[i]] == White(!currentWhite)
      ensures i >= sweepgc
    {
      SweptSoFar(i);
    }

    lemma SweptSoFar(i: nat)
      requires Valid() && gcstate == GCSsweep && i < |rootgc + udata|
      ensures i < sweepgc ==> WhiteAt(color, currentWhite, (rootgc + udata)[i])
    {
      assert i < sweepgc ==> SweptAt(body, color, currentWhite, (rootgc + udata)[i]);
    }

    lemma FreedFromRoots(i: nat)
      requires Valid() && i < |rootgc + udata|
      requires var r := (rootgc + udata)[i]; r in body && (body[r].Thread? ==> body[r].open == [])
      ensures forall x :: x in body && body[x].IsOpen() ==> body[x].v.thread != (rootgc + udata)[i]
    {
      FreedFromRoot(body, rootgc, udata, tmudata, strt, uvhead, i);
    }

    /** `sweeplist` on the root list, for a number of objects. */
    method SweepList(count: nat)
      requires Valid() && gcstate == GCSsweep
      modifies this`body, this`color, this`uvhead, this`rootgc, this`udata, this`sweepgc, this`gray, this`done
      ensures Valid() && Survive(old(Now()), Now())
      ensures |body| - sweepgc <= |old(body)| - old(sweepgc) && sweepgc <= |rootgc + udata|
      ensures count > 0 && old(sweepgc < |rootgc + udata|) ==> |body| - sweepgc < |old(body)| - old(sweepgc)
      ensures old(sweepgc >= |rootgc + udata|) ==> sweepgc >= |rootgc + udata|
    {
      hide Good, Survive;
      ghost var h0 := Now();
      SurviveNothing();
      var n := count;
      while n > 0 && sweepgc < |rootgc + udata|
        invariant n <= count && Valid() && Survive(h0, Now())
        invariant |body| - sweepgc <= |old(body)| - old(sweepgc) - (count - n)
        invariant n == count ==> unchanged(this)
        invariant n < count ==> old(sweepgc < |rootgc + udata|)
        decreases n
      {
        ghost var h := Now();
        SweepObject();
        SurviveMore(h0, h, Now());
        n := n - 1;
      }
      SweepIsInside(Now());
    }

    /** `GCTM`: the userdata goes back to the root list and on the stack, for its finalizer. */
    method GCTM()
      requires Valid() && gcstate == GCSfinalize && tmudata != []
      modifies this`body, this`color, this`tmudata, this`udata, this`done
      ensures Valid() && tmudata == old(tmudata)[1..] && forall r :: Alive(old(color), currentWhite, r) ==>
        Alive(color, currentWhite, r)
      ensures body == if FinalizerIn(old(body), old(body)[old(tmudata)[0]].meta)
        then WithStack(old(body), running, old(body)[running].stack + [Gco(old(tmudata)[0])])
        else old(body)
    {
      hide Good;
      ghost var h := Now();
      RunningIsAlive();
      TmuIsUserdata(h);
      RootsInHeap(h);
      var o := tmudata[0];
      assert o in tmudata;
      HeapKeys();
      Return();
      ReturnedIsGood(h, Now());
      if FinalizerIn(body, body[o].meta) {
        Push(running, Gco(o));
      }
    }

    method Return()
      requires tmudata != [] && tmudata[0] in color
      modifies this`color, this`tmudata, this`udata, this`done
      ensures Returning(old(Now()), Now())
    {
      var o := tmudata[0];
      tmudata := tmudata[1..];
      udata := [o] + udata;
      color := color[o := White(currentWhite)];
      done := {};
    }

    /** How much there is to do in this state. */
    ghost function Rest(): int
      reads this
    {
      match gcstate
      case GCSpropagate => |Whites(color)| + |gray|
      case GCSsweepstring => |strt| - sweepstrgc
      case GCSsweep => |body| - sweepgc
      case GCSfinalize => |tmudata|
      case GCSpause => 0
    }

    /** What a step may mark. */
    ghost predicate MayMark(live: iset<Ref>)
      reads this
    {
      && (gcstate == GCSpause || gcstate == GCSpropagate ==> Covers(live))
      && (gcstate == GCSpropagate ==> Within(body, color, live))
    }

    /** `singlestep`: whatever the program has done in between, no step kills an object that the roots
        reach by strong references, and each step brings the end of the collection nearer. Marking
        stays in any set `live` that holds the roots and is closed under strong references, and after
        the sweep all that was dead when it began is gone, but for what the program found again. */
    method SingleStep(ghost live: iset<Ref>)
      requires Valid() && MayMark(live)
      modifies this
      ensures Valid() && SameRoots(old(Now()), Now()) && StrongStay(old(Now()), Now())
      ensures FinalsStay(old(Now()), old(finalized), Now(), finalized)
      ensures old(gcstate) == GCSpause || (old(gcstate) == GCSpropagate && old(gray) != []) ==>
        gcstate == GCSpropagate && SameHeap(old(Now()), Now()) && finalized == old(finalized) &&
          doomed == old(doomed) && Within(body, color, live) && NoWeakBlackened(body, old(color), color)
      ensures old(gcstate) == GCSpropagate && old(gray) == [] ==>
        gcstate == GCSsweepstring && AtomicStep(old(Now()), old(finalized), Now(), finalized, live, doomed)
      ensures old(Sweeping(Now())) ==>
        SweepStepped(old(Now()), Now()) && finalized == old(finalized) && doomed == old(doomed)
      ensures old(gcstate) == GCSfinalize ==>
        FinalStepped(old(Now()), Now()) && finalized == old(finalized) && doomed == old(doomed)
      ensures !Sweeping(Now()) ==> forall r :: r in doomed ==> r !in body
      ensures old(gcstate) != GCSpause ==> Nearer(Rank(old(gcstate)), old(Rest()), Rank(gcstate), Rest()) && Rest() >= 0
    {
      hide Good, Survive, StrongStay, SameRoots, SameHeap, AtomicStep, Whites, Condemned, Within, Covers, SweepStepped,
        FinalStepped, Sweeping, Nearer, FinalsStay, Disposed, NoWeakBlackened;
      StatesOfSweep();
      ghost var h := Now();
      if gcstate == GCSpause {
        MarkStart(live);
        FinalsAfterMarking(h, Now(), finalized);
      } else if gcstate == GCSpropagate {
        MarkStep(live);
      } else if gcstate == GCSsweepstring {
        SweepStringStep();
      } else if gcstate == GCSsweep {
        SweepStep();
      } else {
        FinalizeStep();
      }
      StatesOfSweep();
    }

    lemma StatesOfSweep()
      requires Valid()
      ensures Sweeping(Now()) <==> gcstate == GCSsweepstring || gcstate == GCSsweep
      ensures !Sweeping(Now()) ==> forall r :: r in doomed ==> r !in body
    {
      if !Sweeping(Now()) {
        DoomedAreGone();
      }
    }

    method MarkStart(ghost live: iset<Ref>)
      requires Valid() && gcstate == GCSpause && Covers(live)
      modifies this`color, this`gray, this`grayagain, this`weak, this`done, this`gcstate
      ensures Valid() && gcstate == GCSpropagate && Within(body, color, live) &&
        NoWeakBlackened(body, old(color), color)
      ensures SameRoots(old(Now()), Now()) && StrongStay(old(Now()), Now()) && SameHeap(old(Now()), Now())
    {
      hide Good, Survive, StrongStay, Within, Covers, Condemned, NoWeakBlackened;
      ghost var h := Now();
      MarkRoot(live);
      SurvivorsStay(h, Now());
    }

    /** A step of the mark phase, or its end. */
    method MarkStep(ghost live: iset<Ref>)
      requires Valid() && gcstate == GCSpropagate && Covers(live) && Within(body, color, live)
      modifies this`body, this`color, this`gray, this`grayagain, this`weak, this`weakKeys, this`weakValues, this`done,
        this`udata, this`tmudata, this`finalized, this`currentWhite, this`gcstate, this`sweepstrgc, this`sweepgc,
        this`doomed
      ensures Valid() && SameRoots(old(Now()), Now()) && StrongStay(old(Now()), Now())
      ensures FinalsStay(old(Now()), old(finalized), Now(), finalized)
      ensures old(gray) != [] ==>
        gcstate == GCSpropagate && SameHeap(old(Now()), Now()) && finalized == old(finalized) &&
          doomed == old(doomed) && Within(body, color, live) && NoWeakBlackened(body, old(color), color)
      ensures old(gray) == [] ==>
        gcstate == GCSsweepstring && AtomicStep(old(Now()), old(finalized), Now(), finalized, live, doomed)
      ensures Nearer(Rank(GCSpropagate), old(Rest()), Rank(gcstate), Rest()) && Rest() >= 0
    {
      hide Good, Survive, StrongStay, SameKinds, LostOnlyDead, Whites, Within, Covers, Condemned, Spared,
        StronglyReachable, RootsOf, FinalsStay, Disposed, NoWeakBlackened, IsWeak, HoldsNoFinalized, FinalsOf;
      ghost var h := Now();
      if gray != [] {
        PropagateStep(live);
        SurvivorsStay(h, Now());
        FinalsAfterMarking(h, Now(), finalized);
      } else {
        Atomic(live);
        BucketIsThere();
        StayAfterAtomic(h, Now(), FinalsOf(old(body), old(finalized)));
      }
    }

    method SweepStringStep()
      requires Valid() && gcstate == GCSsweepstring
      modifies this`body, this`color, this`strt, this`sweepstrgc, this`gcstate, this`done
      ensures Valid() && SameRoots(old(Now()), Now()) && StrongStay(old(Now()), Now()) &&
        SweepStepped(old(Now()), Now())
      ensures FinalsStay(old(Now()), finalized, Now(), finalized)
      ensures gcstate == GCSsweepstring || gcstate == GCSsweep
      ensures Nearer(Rank(GCSsweepstring), old(Rest()), Rank(gcstate), Rest()) && Rest() >= 0
    {
      hide Good, Survive, StrongStay, Condemned, FinalsStay, Disposed;
      ghost var h := Now();
      SweepBucket();
      if gcstate == GCSsweep {
        SweepIsInside(Now());
      }
      SurvivorsStay(h, Now());
      FinalsAfterSweep(h, Now(), doomed, finalized);
    }

    /** Some objects of the root list are swept. */
    method SweepStep()
      requires Valid() && gcstate == GCSsweep
      modifies this`body, this`color, this`uvhead, this`rootgc, this`udata, this`sweepgc, this`gray, this`done,
        this`gcstate
      ensures Valid() && SameRoots(old(Now()), Now()) && StrongStay(old(Now()), Now()) &&
        SweepStepped(old(Now()), Now())
      ensures FinalsStay(old(Now()), finalized, Now(), finalized)
      ensures gcstate == GCSsweep || gcstate == GCSfinalize
      ensures Nearer(Rank(GCSsweep), old(Rest()), Rank(gcstate), Rest()) && Rest() >= 0
    {
      hide Good, Survive, StrongStay, Condemned, FinalsStay, Disposed;
      ghost var h0 := Now();
      SweepSome(40);
      if sweepgc == |rootgc + udata| {
        EndSweep(h0);
      }
      SurvivorsStay(h0, Now());
      FinalsAfterSweep(h0, Now(), doomed, finalized);
    }

    method SweepSome(count: nat)
      requires Valid() && gcstate == GCSsweep && count > 0
      modifies this`body, this`color, this`uvhead, this`rootgc, this`udata, this`sweepgc, this`gray, this`done
      ensures Valid() && Survive(old(Now()), Now()) && 0 <= |body| - sweepgc && sweepgc <= |rootgc + udata|
      ensures sweepgc == |rootgc + udata| || |body| - sweepgc < |old(body)| - old(sweepgc)
    {
      hide Good, Survive, Condemned;
      SweepIsInside(Now());
      SweepList(count);
      SweepIsInside(Now());
    }

    method EndSweep(ghost h0: Snapshot)
      requires Valid() && gcstate == GCSsweep && sweepgc == |rootgc + udata| && Survive(h0, Now())
      modifies this`gcstate, this`done
      ensures Valid() && gcstate == GCSfinalize && Survive(h0, Now())
    {
      hide Good, Survive;
      ghost var h := Now();
      gcstate := GCSfinalize;
      done := {};
      SweepEnds(h, Now());
      SurviveAdvancing(h, Now(), GCSfinalize, sweepstrgc, sweepgc);
      SurviveMore(h0, h, Now());
    }

    method FinalizeStep()
      requires Valid() && gcstate == GCSfinalize
      modifies this`body, this`color, this`tmudata, this`udata, this`done, this`gcstate
      ensures Valid() && SameRoots(old(Now()), Now()) && StrongStay(old(Now()), Now()) &&
        FinalStepped(old(Now()), Now())
      ensures FinalsStay(old(Now()), finalized, Now(), finalized)
      ensures Nearer(Rank(GCSfinalize), old(Rest()), Rank(gcstate), Rest()) && Rest() >= 0
    {
      hide Good, StrongStay, Condemned, StackGrew, FinalsStay, Disposed;
      ghost var h := Now();
      RunningIsAlive();
      StackSame(body, running);
      if tmudata != [] {
        TmuIsUserdata(h);
        StackPushed(body, running, Gco(tmudata[0]));
        GCTM();
        FinalsAfterCall(h, Now(), finalized);
      } else {
        gcstate := GCSpause;
        done := {};
        CollectionEnds(h, Now());
        FinalsAfterNothing(h, Now(), finalized);
      }
      LiveOnesStay(h, Now());
    }

    /** `luaC_step`: some steps, but not beyond the end of the collection. What the roots reach by
        strong references when it begins is not dead when it ends. */
    method Step(limit: nat)
      requires Valid()
      modifies this
      ensures Valid() && SameRoots(old(Now()), Now()) && StrongStay(old(Now()), Now())
      ensures FinalsStay(old(Now()), old(finalized), Now(), finalized)
    {
      hide Good, Condemned, Within, Covers, StrongStay, Survive, StackGrew, AtomicStep, Nearer, MayMark, FinalsStay,
        Disposed;
      ghost var h, fin := Now(), finalized;
      var lim := limit;
      EveryoneMayBeMarked();
      SingleStep(Everyone());
      while lim > 0 && gcstate != GCSpause
        invariant Valid() && SameRoots(h, Now()) && StrongStay(h, Now()) &&
          (gcstate == GCSpropagate ==> h.body == body && h.tmu == tmudata)
        invariant FinalsStay(h, fin, Now(), finalized)
      {
        ghost var h1, fin1 := Now(), finalized;
        EveryoneMayBeMarked();
        SingleStep(Everyone());
        StayLonger(h, h1, Now());
        FinalsStayLonger(h, fin, h1, fin1, Now(), finalized);
        lim := lim - 1;
      }
    }

    lemma EveryoneMayBeMarked()
      ensures MayMark(Everyone())
    {
      EveryoneIsCovered();
    }

    /** `luaC_fullgc`: a collection from its beginning to its end. What is reached by strong references from the
        roots, or from a userdata that had a finalizer to be called, is still there, and says the same, but for
        entries of weak tables that are reached in no other way, or that have the userdata as their value: these
        are gone. Nothing else is left but the strings that such objects refer to, and what is fixed. */
    method FullGC()
      requires Valid()
      modifies this
      ensures Valid() && gcstate == GCSpause && SameRoots(old(Now()), Now())
      ensures forall r :: r in KeptSet(old(Now()), old(finalized)) ==>
        Stays(KeptSet(old(Now()), old(finalized)), finalized, old(body), body, r)
      ensures forall h :: IsWeak(body, h) ==> HoldsNoFinalized(body, finalized, h)
      ensures forall r :: r in body ==>
        r in old(body) && (r in fixed ||
        Spared(old(body), KeptSet(old(Now()), old(finalized)), r))
      ensures FinalsStay(old(Now()), old(finalized), Now(), finalized)
      ensures forall u :: u in FinalsOf(old(body), old(finalized)) ==>
        u in body && (u !in finalized || Gco(u) in body[running].stack)
    {
      hide Good, Condemned, Within, CoversAt, Survive, Stays, Spared, StrongSet, KeptSet, CycleAt, Purged, StrongStay,
        AtomicStep, StronglyReachable, RootsOf, FinalsStay, Disposed, FinalsOf, AllReached, IsWeak, HoldsNoFinalized;
      ghost var h0, live, fin := Now(), KeptSet(Now(), finalized), finalized;
      FinalsAreAlive(h0, doomed, finalized);
      FinishSweep();
      CycleCovers(h0, Now(), finalized);
      KeptIsReached(h0, Now(), finalized);
      MarkAllRoots(h0, live);
      while gcstate != GCSpause
        invariant Valid() && SameRoots(h0, Now()) && Rest() >= 0 && CycleAt(h0, Now(), finalized, doomed, live)
        invariant FinalsStay(h0, fin, Now(), finalized) && (gcstate == GCSpause ==> tmudata == [])
        invariant gcstate == GCSpropagate ==> Covers(live) && Within(body, color, live)
        decreases Rank(gcstate), Rest()
      {
        CycleStep(h0, fin, live);
      }
      StatesOfSweep();
      CycleEnds(h0, Now(), finalized, doomed, live);
      assert RootsAt(h0) == old(Roots());
      RunningIsAlive();
      FinalsCalled(h0, fin, Now(), finalized);
    }

    method MarkAllRoots(ghost h0: Snapshot, ghost live: iset<Ref>)
      requires Valid() && gcstate == GCSfinalize && Covers(live) && Good(h0) && Purged(h0, Now()) &&
        SameRoots(h0, Now()) && tmudata == h0.tmu
      requires FinalsStay(h0, finalized, Now(), finalized) && AllReached(Now(), finalized, live)
      modifies this`color, this`gray, this`grayagain, this`weak, this`done, this`gcstate
      ensures Valid() && gcstate == GCSpropagate && SameRoots(h0, Now()) && Rest() >= 0 &&
        CycleAt(h0, Now(), finalized, doomed, live)
      ensures Covers(live) && Within(body, color, live) && FinalsStay(h0, finalized, Now(), finalized)
    {
      hide Good, Condemned, Within, CoversAt, Survive, Purged, StrongStay, FinalsStay, Disposed, AllReached,
        NoWeakBlackened, NoneBlack;
      ghost var h1 := Now();
      NoneIsBlack(h1);
      MarkRoot(live);
      FinalsAfterMarking(h1, Now(), finalized);
      FinalsStayLonger(h0, finalized, h1, finalized, Now(), finalized);
      CycleBegins(h0, h1, Now());
      StillReached(h1, Now(), finalized, live);
      StillNoneBlack(body, h1.color, color);
      CoversStays(h1, Now(), finalized, live);
    }

    method CycleStep(ghost h0: Snapshot, ghost fin: set<Ref>, ghost live: iset<Ref>)
      requires FinalsStay(h0, fin, Now(), finalized)
      requires Valid() && gcstate != GCSpause && Good(h0) && SameRoots(h0, Now()) &&
        CycleAt(h0, Now(), finalized, doomed, live)
      requires gcstate == GCSpropagate ==> Covers(live) && Within(body, color, live)
      modifies this
      ensures Valid() && SameRoots(h0, Now()) && CycleAt(h0, Now(), finalized, doomed, live)
      ensures FinalsStay(h0, fin, Now(), finalized) && (gcstate == GCSpause ==> tmudata == [])
      ensures gcstate == GCSpropagate ==> Covers(live) && Within(body, color, live)
      ensures Nearer(Rank(old(gcstate)), old(Rest()), Rank(gcstate), Rest()) && Rest() >= 0
    {
      hide Good, Condemned, Within, CoversAt, Survive, CycleAt, StrongStay, AtomicStep, StackGrew, Nearer, FinalsStay,
        Disposed, NoWeakBlackened;
      ghost var h1, fin1, doomed1 := Now(), finalized, doomed;
      SingleStep(live);
      FinalsStayLonger(h0, fin, h1, fin1, Now(), finalized);
      CycleGoesOn(h0, h1, Now(), fin1, doomed1, finalized, doomed, live);
      if gcstate == GCSpropagate {
        CoversStays(h1, Now(), finalized, live);
      }
    }

    /** The collection that is going on, if any, comes to the end of its sweep; marking is given up. */
    method FinishSweep()
      requires Valid()
      modifies this
      ensures Valid() && gcstate == GCSfinalize && finalized == old(finalized)
      ensures SameRoots(old(Now()), Now()) && tmudata == old(tmudata) && Purged(old(Now()), Now())
      ensures FinalsStay(old(Now()), finalized, Now(), finalized)
    {
      hide Good, Condemned, Survive, Within, CoversAt, Purged, StrongStay, FinalsStay, Disposed;
      ghost var doomed0 := doomed;
      ghost var h0 := Now();
      SurviveNothing();
      if gcstate == GCSpause || gcstate == GCSpropagate {
        GiveUp();
      }
      SizesAreRight();
      while gcstate != GCSfinalize
        invariant Valid() && (Sweeping(Now()) || gcstate == GCSfinalize) && Rest() >= 0
        invariant SameRoots(h0, Now()) && tmudata == h0.tmu && finalized == old(finalized) && doomed == old(doomed) &&
          Survive(h0, Now())
        decreases Rank(gcstate), Rest()
      {
        ghost var h1 := Now();
        StatesOfSweep();
        SingleStep(Everyone());
        SurviveMore(h0, h1, Now());
      }
      DoomedAreGone();
      AllPurged(h0, Now(), doomed);
      FinalsAfterSweep(h0, Now(), doomed0, finalized);
    }

    lemma SizesAreRight()
      requires Valid()
      ensures Rest() >= 0
    {
      if gcstate == GCSsweep {
        SweepIsInside(Now());
      }
    }

    method GiveUp()
      requires Valid() && (gcstate == GCSpause || gcstate == GCSpropagate)
      modifies this`gray, this`grayagain, this`weak, this`done, this`gcstate, this`sweepstrgc, this`sweepgc
      ensures Valid() && gcstate == GCSsweepstring && Survive(old(Now()), Now())
    {
      hide Good;
      ghost var h := Now();
      NoGray();
      sweepstrgc, sweepgc := 0, 0;
      gcstate := GCSsweepstring;
      GiveUpMarking(h, Now());
      HeapKeys();
    }
  }

  const FIRST_BODIES: Bodies :=
    map[0 := Thread(Gco(1), [Nil], []), 1 := Table(Nil, [], [], Mode(false, false), false),
      2 := Table(Nil, [], [], Mode(false, false), false)]

  const FIRST_COLORS: Colors := map[0 := White(false), 1 := White(false), 2 := White(false)]

  lemma FirstStateIsGood(h: Snapshot)
    requires h.gcstate == GCSpause && h.mainthread == 0 == h.running && h.registry == Gco(2) &&
      h.mt == seq(9, _ => Nil) && h.fixed == {0}
    requires h.body == FIRST_BODIES && h.color == FIRST_COLORS && h.white == false && h.tmu == [] && h.uvhead == []
    requires h.rootgc == [2, 1, 0] && h.udata == [] && |h.strt| > 0 && forall b :: 0 <= b < |h.strt| ==> h.strt[b] == []
    ensures Good(h)
  {
    hide RootList, Buckets, OpenUpvalues, Safe, RootsAlive;
    FirstLists(h.strt);
    FirstSafe();
    FirstRoots(h.mt);
  }

  lemma FirstLists(strt: seq<seq<Ref>>)
    requires forall b :: 0 <= b < |strt| ==> strt[b] == []
    ensures RootList(FIRST_BODIES, [2, 1, 0], [], []) && Buckets(FIRST_BODIES, strt) && OpenUpvalues(FIRST_BODIES, [])
  {
    hide RootList, OpenUpvalues;
    FirstRootList();
  }

  lemma FirstRootList()
    ensures RootList(FIRST_BODIES, [2, 1, 0], [], []) && OpenUpvalues(FIRST_BODIES, [])
  {
  }

  lemma FirstSafe()
    ensures Safe(FIRST_BODIES, FIRST_COLORS, false)
  {
  }

  lemma FirstRoots(mt: seq<Value>)
    requires mt == seq(9, _ => Nil)
    ensures RootsAlive(FIRST_BODIES, FIRST_COLORS, false, 0, 0, Gco(2), mt, [])
  {
  }

  /** A variable that a closure captures: a local, with room for an upvalue in case there is none for
      it yet, or an upvalue of the enclosing function. */
  datatype Capture = Local(level: nat, spare: Ref) | Enclosing(uv: Ref)

  ghost predicate DistinctFresh(captures: seq<Capture>) {
    forall i, j :: 0 <= i < j < |captures| && captures[i].Local? && captures[j].Local? ==>
      captures[i].spare != captures[j].spare
  }

  lemma OneValueAlive(color: Colors, white: bool, v: Value)
    requires AliveValue(color, white, v)
    ensures AliveValues(color, white, [v])
  {
  }

  lemma ClosureCreated(body: Bodies, color: Colors, white: bool, o: Ref, env: Value, slots: seq<Value>)
    requires o !in body && body.Keys == color.Keys && AliveValue(color, white, env) && AliveValues(color, white, slots)
    ensures Created(body, color, white, o, Closure(env, slots))
  {
  }

  lemma UserdataCreated(body: Bodies, color: Colors, white: bool, o: Ref, env: Value)
    requires o !in body && body.Keys == color.Keys && AliveValue(color, white, env)
    ensures Created(body, color, white, o, Userdata(Nil, env))
  {
  }

  function StackSlotSet(body: Bodies, th: Ref, i: nat, v: Value): Body
    requires th in body && body[th].Thread? && i < |body[th].stack|
  {
    body[th].(stack := body[th].stack[i := v])
  }

  lemma ThreadOfStack(body: Bodies, th: Ref, stack: seq<Value>, v: Value, fixed: set<Ref>, mainthread: Ref)
    requires Restacked(body, th, stack, v) && FixedOk(body, fixed, mainthread)
    ensures th in body && body[th].Thread? && FixedOk(WithStack(body, th, stack), fixed, mainthread)
  {
  }

  lemma NoBarrierNeeded(color: Colors, o: Ref, b: Body, v: Value, vs: seq<Value>)
    requires o in color && (v.Gco? ==> v.ref in color) && !(v.Gco? && color[v.ref].White? && color[o].Black?)
    requires forall i :: 0 <= i < |vs| && vs[i] != v ==> b.Table? && (color[o].Black? ==> Reached(color, vs[i]))
    ensures !color[o].Black? || forall i :: 0 <= i < |vs| ==> Reached(color, vs[i])
  {
  }

  lemma AliveOne(color: Colors, white: bool, vs: seq<Value>, v: Value)
    requires AliveValues(color, white, vs) && v in vs
    ensures AliveValue(color, white, v)
  {
  }

  /** What a store keeps of the heap as a whole. */
  lemma StoredHeap(body: Bodies, color: Colors, white: bool, rootgc: seq<Ref>, udata: seq<Ref>, tmu: seq<Ref>,
      strt: seq<seq<Ref>>, uvhead: seq<Ref>, fixed: set<Ref>, mainthread: Ref, o: Ref, b: Body, vs: seq<Value>)
    requires HeapOk(body, color, white, rootgc, udata, tmu, strt, uvhead) && FixedOk(body, fixed, mainthread)
    requires Stored(body, o, b, vs) && AliveValues(color, white, vs)
    ensures Safe(body[o := b], color, white) && Linked(body[o := b], rootgc, udata, tmu, strt, uvhead) &&
      FixedOk(body[o := b], fixed, mainthread)
    ensures o in body && body.Keys == color.Keys && forall i :: 0 <= i < |vs| && vs[i].Gco? ==> vs[i].ref in color
    ensures forall r :: r in body && body[r].Thread? ==> r in body[o := b] && body[o := b][r].Thread?
  {
    StoredIsSafe(body, color, white, o, b, vs);
    StoredIsLinked(body, rootgc, udata, tmu, strt, uvhead, o, b, vs);
    KindsOfStored(body, o, b, vs);
    StoredIsFixed(body, o, b, vs, fixed, mainthread);
  }

  lemma StoredOne(body: Bodies, o: Ref, b: Body, vs: seq<Value>, v: Value)
    requires Stored(body, o, b, vs) && v in vs && forall i :: 0 <= i < |vs| ==> vs[i] == v
    ensures Stored(body, o, b, [v])
  {
  }

  lemma StoredIsFixed(body: Bodies, o: Ref, b: Body, vs: seq<Value>, fixed: set<Ref>, mainthread: Ref)
    requires Stored(body, o, b, vs) && FixedOk(body, fixed, mainthread)
    ensures FixedOk(body[o := b], fixed, mainthread)
  {
  }

  lemma StillThere(body: Bodies, c0: Colors, g0: seq<Ref>, d0: set<Ref>, c: Colors, g: seq<Ref>, d: set<Ref>)
    requires Advanced(body, c0, g0, d0, c, g, d)
    ensures c.Keys == c0.Keys
  {
  }

  lemma InHeap(body: Bodies, color: Colors, white: bool, lists: seq<Ref>, tmu: seq<Ref>, done: set<Ref>, ex: set<Ref>,
      o: Ref)
    requires MarkPhase(body, color, white, lists, tmu, done, ex)
    ensures o in color <==> o in body
  {
  }

  /** What an object refers to is in the heap. */
  lemma References(body: Bodies, color: Colors, white: bool, lists: seq<Ref>, tmu: seq<Ref>, done: set<Ref>,
      ex: set<Ref>, o: Ref)
    requires MarkPhase(body, color, white, lists, tmu, done, ex) && o in body
    ensures forall c :: Refers(body, o, c) ==> c in color
  {
  }

  lemma StringHasNone(body: Bodies, color: Colors, tmu: seq<Ref>, o: Ref)
    requires o in body && body[o].TString?
    ensures AllOk(body, color, tmu, o)
  {
  }

  lemma UserdataMarked(body: Bodies, color1: Colors, color: Colors, tmu: seq<Ref>, o: Ref)
    requires o in body && body[o].Userdata? && Darker(color1, color)
    requires body[o].meta.Gco? ==> Ok(color1, [], body[o].meta.ref)
    requires body[o].env.Gco? ==> Ok(color, [], body[o].env.ref)
    ensures AllOk(body, color, tmu, o)
  {
  }

  lemma UpvalueMarked(body: Bodies, color: Colors, tmu: seq<Ref>, o: Ref)
    requires o in body && body[o].UpVal?
    requires var v := ValueOf(body, body[o].v); v.Gco? ==> Ok(color, [], v.ref)
    ensures AllOk(body, color, tmu, o) && StrongOk(body, color, tmu, o)
  {
  }

  lemma AdvancedIsDarker(body: Bodies, c0: Colors, g0: seq<Ref>, d0: set<Ref>, c: Colors, g: seq<Ref>, d: set<Ref>)
    requires Advanced(body, c0, g0, d0, c, g, d)
    ensures |Whites(c)| + |g| <= |Whites(c0)| + |g0|
    ensures Darker(c0, c) && c.Keys == c0.Keys && d0 <= d && forall r :: r in c0 && !c0[r].White? ==> c[r] == c0[r]
  {
  }

  lemma NotListed(body: Bodies, c0: Colors, g0: seq<Ref>, d0: set<Ref>, c: Colors, g: seq<Ref>, d: set<Ref>, h: Ref)
    requires Advanced(body, c0, g0, d0, c, g, d) && h !in g0 && !IsWhite(c0, h)
    ensures h !in g
  {
  }

  lemma ExemptIsMarked(body: Bodies, color: Colors, white: bool, lists: seq<Ref>, tmu: seq<Ref>, done: set<Ref>,
      ex: set<Ref>, h: Ref)
    requires MarkPhase(body, color, white, lists, tmu, done, ex) && h in ex
    ensures h in color && !color[h].White?
  {
  }

  lemma NotInRest(body: Bodies, c0: Colors, g0: seq<Ref>, d0: set<Ref>, c: Colors, g: seq<Ref>, d: set<Ref>, h: Ref)
    requires Advanced(body, c0, g0, d0, c, g, d) && h !in g0 && h in c0 && !c0[h].White?
    ensures h !in g && h in c && c[h] == c0[h]
  {
  }

  /** The references of an object, one by one. */
  lemma ItsOwnReferences(body: Bodies, color: Colors, o: Ref)
    requires o in body && forall c :: Refers(body, o, c) ==> c in color
    ensures body[o].Table? ==> forall i :: 0 <= i < |body[o].arr| && body[o].arr[i].Gco? ==> body[o].arr[i].ref in color
    ensures body[o].Table? ==> (body[o].meta.Gco? ==> body[o].meta.ref in color)
    ensures body[o].Table? ==> forall i: nat :: LiveEntry(body[o].node, i) ==>
      (body[o].node[i].key.Gco? ==> body[o].node[i].key.ref in color) &&
        (body[o].node[i].val.Gco? ==> body[o].node[i].val.ref in color)
    ensures body[o].Closure? ==> (body[o].env.Gco? ==> body[o].env.ref in color)
    ensures body[o].Closure? || body[o].Proto? ==> forall i :: 0 <= i < |body[o].slots| && body[o].slots[i].Gco? ==>
      body[o].slots[i].ref in color
    ensures body[o].Thread? ==> (body[o].globals.Gco? ==> body[o].globals.ref in color)
    ensures body[o].Thread? ==> forall i :: 0 <= i < |body[o].stack| && body[o].stack[i].Gco? ==>
      body[o].stack[i].ref in color
  {
    if body[o].Table? {
      forall i: nat | LiveEntry(body[o].node, i)
        ensures body[o].node[i].key.Gco? ==> body[o].node[i].key.ref in color
        ensures body[o].node[i].val.Gco? ==> body[o].node[i].val.ref in color
      {
        assert body[o].node[i].key.Gco? ==> Refers(body, o, body[o].node[i].key.ref);
        assert body[o].node[i].val.Gco? ==> Refers(body, o, body[o].node[i].val.ref);
      }
      forall i | 0 <= i < |body[o].arr| && body[o].arr[i].Gco? ensures body[o].arr[i].ref in color {
        assert Refers(body, o, body[o].arr[i].ref);
      }
    } else if body[o].Closure? || body[o].Proto? {
      forall i | 0 <= i < |body[o].slots| && body[o].slots[i].Gco? ensures body[o].slots[i].ref in color {
        assert Refers(body, o, body[o].slots[i].ref);
      }
    } else if body[o].Thread? {
      forall i | 0 <= i < |body[o].stack| && body[o].stack[i].Gco? ensures body[o].stack[i].ref in color {
        assert Refers(body, o, body[o].stack[i].ref);
      }
    }
  }

  lemma OneMoreEntry(c1: Colors, c2: Colors, c: Colors, node: seq<Entry>, mode: Mode, i: nat)
    requires i < |node| && EntriesOk(c1, node, mode, i + 1) && Darker(c1, c2) && Darker(c2, c)
    requires LiveEntry(node, i) && !mode.weakKey && node[i].key.Gco? ==> Ok(c2, [], node[i].key.ref)
    requires LiveEntry(node, i) && !mode.weakValue && node[i].val.Gco? ==> Ok(c, [], node[i].val.ref)
    ensures EntriesOk(c, node, mode, i)
  {
  }

  lemma AdvancedMore(body: Bodies, c0: Colors, g0: seq<Ref>, d0: set<Ref>, c: Colors, g: seq<Ref>, d: set<Ref>,
      d': set<Ref>)
    requires Advanced(body, c0, g0, d0, c, g, d) && d <= d'
    ensures Advanced(body, c0, g0, d0, c, g, d')
  {
  }

  lemma ClearedNothing(body: Bodies, color: Colors, finalized: set<Ref>, values: set<Ref>, weak: seq<Ref>)
    ensures ClearedSoFar(body, color, body, color, finalized, values, weak, 0)
  {
  }

  lemma NextToClear(body0: Bodies, color0: Colors, body: Bodies, color: Colors, finalized: set<Ref>, keys: set<Ref>,
      values: set<Ref>, weak: seq<Ref>, n: nat)
    requires body0.Keys == color0.Keys && Whole(body0) && Distinct(weak) && n < |weak|
    requires forall h :: h in weak ==> BitsMatch(body0, keys, values, h) && StrongMarked(body0, color0, h)
    requires ClearedSoFar(body0, color0, body, color, finalized, values, weak, n)
    ensures body.Keys == color.Keys && weak[n] in body && body[weak[n]].Table? && weak[n] in body0 &&
      body[weak[n]] == body0[weak[n]]
    ensures BitsMatch(body, keys, values, weak[n]) && StrongMarked(body, color, weak[n])
    ensures forall c :: Refers(body, weak[n], c) ==> c in body
  {
    assert weak[n] !in weak[..n] && weak[n] in weak;
    KindsKeep(body0, body, color0, color, keys, values, weak[n]);
  }

  lemma ClearedOneMore(body0: Bodies, color0: Colors, body1: Bodies, color1: Colors, body: Bodies, color: Colors,
      finalized: set<Ref>, values: set<Ref>, weak: seq<Ref>, n: nat)
    requires n < |weak| && Distinct(weak) && weak[n] in body1 && body1[weak[n]].Table? && weak[n] in body0 &&
      body1[weak[n]] == body0[weak[n]]
    requires ClearedSoFar(body0, color0, body1, color1, finalized, values, weak, n)
    requires weak[n] in body && body == body1[weak[n] := body[weak[n]]] &&
      Cleared(body1, body, color1, finalized, values, weak[n])
    requires StringsMarked(body1, color1, color) && AllMarked(body, color, weak[n])
    ensures ClearedSoFar(body0, color0, body, color, finalized, values, weak, n + 1)
  {
    hide Cleared, AllMarked, StringsMarked;
    var h := weak[n];
    ClearedIsKind(body1, body, color1, finalized, values, h);
    ClearedSinceStart(body0, body1, body, color0, color1, finalized, values, h);
    StringsMarkedKinds(body0, body1, color0, color1, color);
    assert weak[..n + 1] == weak[..n] + [h];
    forall g | g in weak[..n] ensures g in body && Cleared(body0, body, color0, finalized, values, g) &&
      AllMarked(body, color, g) {
      ClearedStays(body0, body1, body, color0, color1, color, finalized, values, g);
    }
  }

  lemma ClearedIsKind(body: Bodies, body': Bodies, color: Colors, finalized: set<Ref>, values: set<Ref>, h: Ref)
    requires h in body && body[h].Table? && Cleared(body, body', color, finalized, values, h) &&
      body' == body[h := body'[h]]
    ensures SameKinds(body, body')
  {
  }

  lemma StringsMarkedKinds(body0: Bodies, body1: Bodies, c0: Colors, c1: Colors, c2: Colors)
    requires SameKinds(body0, body1) && StringsMarked(body0, c0, c1) && StringsMarked(body1, c1, c2)
    ensures StringsMarked(body0, c0, c2)
  {
  }

  lemma ClearedStays(body0: Bodies, body1: Bodies, body: Bodies, color0: Colors, color1: Colors, color: Colors,
      finalized: set<Ref>, values: set<Ref>, h: Ref)
    requires h in body1 && h in body && body[h] == body1[h] && SameKinds(body1, body)
    requires Cleared(body0, body1, color0, finalized, values, h) && AllMarked(body1, color1, h) &&
      StringsMarked(body1, color1, color)
    ensures Cleared(body0, body, color0, finalized, values, h) && AllMarked(body, color, h)
  {
  }

  lemma PhaseKeys(body: Bodies, color: Colors, white: bool, lists: seq<Ref>, tmu: seq<Ref>, done: set<Ref>,
      ex: set<Ref>)
    requires MarkPhase(body, color, white, lists, tmu, done, ex)
    ensures body.Keys == color.Keys && Whole(body) && (forall r :: r in color ==> color[r] != White(!white))
    ensures Distinct(lists) && forall r :: r in lists && r !in ex ==> r in color && color[r].Gray?
    ensures forall r :: r in done ==> r in color && !color[r].White?
  {
  }

  lemma NoneChosen(body: Bodies, color: Colors, finalized: set<Ref>, us: seq<Ref>)
    ensures Chosen(body, color, finalized, us[..0]) == [] == Passed(body, color, finalized, us[..0])
    ensures WhitesIn(color, us[..0]) == {}
  {
  }

  lemma NextPassed(passed: seq<Ref>, us: seq<Ref>, n: nat, udata: seq<Ref>)
    requires n < |us| && udata == passed + us[n..]
    ensures udata[|passed|] == us[n]
    ensures udata == passed + [us[n]] + us[n + 1..]
    ensures udata[..|passed|] + udata[|passed| + 1..] == passed + us[n + 1..]
  {
  }

  lemma NotSeenYet(color: Colors, us: seq<Ref>, n: nat)
    requires Distinct(us) && n < |us|
    ensures us[n] !in WhitesIn(color, us[..n])
  {
  }

  lemma SameBodies(h: Snapshot, h1: Snapshot, weak: seq<Ref>, keys: set<Ref>, values: set<Ref>)
    requires AtomicMarked(h, h1, weak, keys, values)
    ensures h1.body == h.body && h1.running == h.running
  {
  }

  lemma SuffixDistinct(a: seq<Ref>, b: seq<Ref>)
    requires Distinct(a + b)
    ensures Distinct(b)
  {
    assert forall i :: 0 <= i < |b| ==> b[i] == (a + b)[|a| + i];
  }

  lemma AgainStaysDone(body: Bodies, grayagain: seq<Ref>, done: set<Ref>, done': set<Ref>)
    requires AgainDone(body, grayagain, done) && done <= done'
    ensures AgainDone(body, grayagain, done')
  {
  }

  lemma WeakStaysDone(body: Bodies, weak: seq<Ref>, done: set<Ref>, done': set<Ref>, keys: set<Ref>, values: set<Ref>)
    requires WeakDone(body, weak, done, keys, values) && done <= done'
    ensures WeakDone(body, weak, done', keys, values)
  {
  }

  lemma WeakBits(body: Bodies, weak: seq<Ref>, done: set<Ref>, keys: set<Ref>, values: set<Ref>)
    requires WeakDone(body, weak, done, keys, values)
    ensures forall h :: h in weak ==> BitsMatch(body, keys, values, h)
  {
  }

  lemma StaysMarked(color: Colors, color': Colors, r: Ref)
    requires Darker(color, color') && r in color && !color[r].White?
    ensures r in color' && !color'[r].White?
  {
  }

  lemma ChangedAreReferences(body0: Bodies, body1: Bodies, color0: Colors, color1: Colors, color: Colors, h: Ref)
    requires h in body0 && body0[h].Table? && h in body1 && body1[h].Table? && body1[h].node == body0[h].node
    requires color0.Keys == color1.Keys == color.Keys
    requires forall r :: r in color1 ==> color1[r] == color0[r] || Gco(r) in body0[h].arr
    requires forall r :: r in color ==> color[r] == color1[r] || InEntries(body1[h].node, r)
    ensures forall r :: r in color ==> color[r] == color0[r] || Refers(body0, h, r)
  {
  }

  lemma KeysOfMarked(body: Bodies, color: Colors, color': Colors)
    requires StringsMarked(body, color, color')
    ensures color'.Keys == color.Keys
  {
  }

  lemma KindsSoFar(body0: Bodies, color0: Colors, body: Bodies, color: Colors, finalized: set<Ref>, values: set<Ref>,
      weak: seq<Ref>, n: nat)
    requires ClearedSoFar(body0, color0, body, color, finalized, values, weak, n)
    ensures SameKinds(body0, body)
  {
  }

  /** When marking is over. */
  lemma MarkedAll(body: Bodies, color: Colors, white: bool, grayagain: seq<Ref>, weak: seq<Ref>, tmu: seq<Ref>,
      done: set<Ref>, keys: set<Ref>, values: set<Ref>)
    requires MarkPhase(body, color, white, grayagain + weak, tmu, done, {})
    requires AgainDone(body, grayagain, done) && WeakDone(body, weak, done, keys, values) &&
      UpvaluesDone(body, color, done, {})
    requires forall u :: u in tmu ==> u in done && u in body && body[u].Userdata?
    ensures body.Keys == color.Keys && Whole(body) && (forall r :: r in color ==> color[r] != White(!white)) &&
      ProperMarks(body, color)
    ensures forall r :: r in body && !color[r].White? ==> StrongMarked(body, color, r)
    ensures forall r :: r in body && !color[r].White? && r !in weak ==> AllMarked(body, color, r)
    ensures forall h :: IsWeak(body, h) && h in color && color[h].Gray? ==> h in weak
    ensures Distinct(weak) && forall h :: h in weak ==>
      h in color && !color[h].White? && BitsMatch(body, keys, values, h)
  {
    hide MarkPhase, UpvaluesDone, AgainDone, StrongMarked, AllMarked, BitsMatch, Whole, ProperMarks, IsWeak;
    PhaseKeys(body, color, white, grayagain + weak, tmu, done, {});
    SuffixDistinct(grayagain, weak);
    EverythingMarked(body, color, white, grayagain, weak, tmu, done, keys, values);
    MarksAreProper(body, color, white, grayagain + weak, tmu, done);
    WeakBits(body, weak, done, keys, values);
  }

  lemma WeakAreLive(body: Bodies, color: Colors, live: iset<Ref>, weak: seq<Ref>)
    requires Within(body, color, live) && forall h :: h in weak ==> h in color && !color[h].White?
    ensures forall h :: h in weak ==> h in live
    ensures forall r :: r in color && !color[r].White? ==> Spared(body, live, r)
  {
  }

  lemma StillSpared(body0: Bodies, body1: Bodies, color1: Colors, color: Colors, live: iset<Ref>, h: Ref)
    requires SameKinds(body0, body1) && h in live && h in body1 && body1[h] == body0[h] &&
      StringsMarked(body1, color1, color) && color.Keys <= body1.Keys
    requires forall r :: r in color1 && !color1[r].White? ==> Spared(body0, live, r)
    requires forall r :: r in color ==> color[r] == color1[r] || Refers(body1, h, r)
    ensures forall r :: r in color && !color[r].White? ==> Spared(body0, live, r)
  {
    hide Refers;
    forall r | r in color && !color[r].White? ensures Spared(body0, live, r) {
      if color[r] != color1[r] {
        SameReference(body0, body1, h, r);
      }
    }
  }

  lemma BitsOfTable(body: Bodies, keys: set<Ref>, values: set<Ref>, h: Ref)
    requires BitsMatch(body, keys, values, h)
    ensures h in body && body[h].Table?
  {
  }

  lemma NoStrings(body: Bodies, color: Colors)
    ensures StringsMarked(body, color, color)
  {
  }

  lemma ClearedTogether(body0: Bodies, body1: Bodies, body: Bodies, color0: Colors, color1: Colors, color: Colors,
      finalized: set<Ref>, keys: set<Ref>, values: set<Ref>, h: Ref)
    requires h in body0 && body0[h].Table? && BitsMatch(body0, keys, values, h) && StrongMarked(body0, color0, h)
    requires h in body1 && body1 == body0[h := body1[h]] && body1[h].Table? &&
      body1[h] == body0[h].(arr := body1[h].arr)
    requires |body1[h].arr| == |body0[h].arr| && StringsMarked(body0, color0, color1)
    requires h !in values ==> body1 == body0
    requires h in values ==> forall i :: 0 <= i < |body1[h].arr| ==>
      Reached(color1, body1[h].arr[i]) && body1[h].arr[i] == ClearedSlot(body0, color0, finalized, body0[h].arr[i])
    requires h in body && body == body1[h := body[h]] && body[h].Table? && body[h] == body1[h].(node := body[h].node)
    requires |body[h].node| == |body1[h].node| && StringsMarked(body1, color1, color)
    requires forall i :: 0 <= i < |body[h].node| ==>
      body[h].node[i] == ClearedEntry(body1, color1, finalized, body1[h].node[i])
    requires forall i: nat :: LiveEntry(body[h].node, i) ==>
      Reached(color, body[h].node[i].key) && Reached(color, body[h].node[i].val)
    ensures body == body0[h := body[h]] && Cleared(body0, body, color0, finalized, values, h)
    ensures StringsMarked(body0, color0, color) && AllMarked(body, color, h)
  {
    StringsMarkedKinds(body0, body1, color0, color1, color);
    forall i | 0 <= i < |body0[h].node| ensures body[h].node[i] ==
      ClearedEntry(body0, color0, finalized, body0[h].node[i]) {
      ClearableStays(body0, body1, color0, color1, finalized, body0[h].node[i].key, true);
      ClearableStays(body0, body1, color0, color1, finalized, body0[h].node[i].val, false);
    }
    hide ClearedEntry, ClearedSlot;
    ClearedIsMarked(body0, body, color0, color, finalized, keys, values, h);
  }

  lemma RootsStayMarked(color: Colors, color': Colors, mainthread: Ref, registry: Value)
    requires Darker(color, color') && mainthread in color && !color[mainthread].White? && Reached(color, registry)
    ensures mainthread in color' && !color'[mainthread].White? && Reached(color', registry)
  {
  }

  lemma ArrayStored(body: Bodies, t: Ref, i: nat, v: Value)
    requires t in body && body[t].Table? && i < |body[t].arr|
    ensures Stored(body, t, body[t].(arr := body[t].arr[i := v]), [v])
  {
  }

  lemma KeyStored(body: Bodies, t: Ref, i: nat, key: Value)
    requires t in body && body[t].Table? && i < |body[t].node| && body[t].node[i].val == Nil
    ensures Stored(body, t, body[t].(node := body[t].node[i := Entry(key, Nil)]), [key])
  {
    NodeStored(body, t, i, Entry(key, Nil), [key]);
  }

  lemma ValueStored(body: Bodies, t: Ref, i: nat, key: Value, v: Value)
    requires t in body && body[t].Table? && i < |body[t].node| && body[t].node[i] == Entry(key, Nil)
    ensures Stored(body, t, body[t].(node := body[t].node[i := body[t].node[i].(val := v)]), [key, v])
  {
    NodeStored(body, t, i, Entry(key, v), [key, v]);
  }

  lemma ValueReplaced(body: Bodies, t: Ref, i: nat, v: Value)
    requires t in body && body[t].Table? && i < |body[t].node| && LiveEntry(body[t].node, i)
    ensures Stored(body, t, body[t].(node := body[t].node[i := body[t].node[i].(val := v)]), [v])
  {
    NodeStored(body, t, i, body[t].node[i].(val := v), [v]);
  }

  /** An entry of the hash part changes. */
  lemma NodeStored(body: Bodies, t: Ref, i: nat, e: Entry, vs: seq<Value>)
    requires t in body && body[t].Table? && i < |body[t].node|
    requires e.val == Nil || ((e.key in vs || (LiveEntry(body[t].node, i) && e.key == body[t].node[i].key)) &&
      e.val in vs)
    ensures Stored(body, t, body[t].(node := body[t].node[i := e]), vs)
  {
    var node, node' := body[t].node, body[t].node[i := e];
    forall c | KeyRefers(node', c) ensures KeyRefers(node, c) || Gco(c) in vs {
      var j: nat :| LiveEntry(node', j) && node'[j].key == Gco(c);
      assert j != i ==> LiveEntry(node, j);
    }
    forall c | ValueRefers(node', c) ensures ValueRefers(node, c) || Gco(c) in vs {
      var j: nat :| LiveEntry(node', j) && node'[j].val == Gco(c);
      assert j != i ==> LiveEntry(node, j);
    }
  }

  /** The values of the new parts, and the keys of the new nodes, are among the old ones; an integer key
      may have become an index, or the other way round. */
  ghost predicate MovedParts(arr: seq<Value>, node: seq<Entry>, arr': seq<Value>, node': seq<Entry>) {
    && (forall i :: 0 <= i < |arr'| ==> OldValue(arr, node, arr'[i]))
    && (forall i: nat :: LiveEntry(node', i) ==>
       OldValue(arr, node, node'[i].val) && (node'[i].key.Gco? ==> KeyRefers(node, node'[i].key.ref)))
  }

  ghost predicate OldValue(arr: seq<Value>, node: seq<Entry>, v: Value) {
    v.Gco? ==> v in arr || ValueRefers(node, v.ref)
  }

  lemma PartsStored(body: Bodies, t: Ref, arr: seq<Value>, node: seq<Entry>)
    requires t in body && body[t].Table? && MovedParts(body[t].arr, body[t].node, arr, node)
    ensures Stored(body, t, body[t].(arr := arr, node := node), [Plain])
  {
  }

  lemma SlotStored(body: Bodies, o: Ref, i: nat, v: Value)
    requires o in body && (body[o].Closure? || body[o].Proto?) && i < |body[o].slots|
    ensures Stored(body, o, body[o].(slots := body[o].slots[i := v]), [v])
  {
  }

  lemma SameSize(body: Bodies, body': Bodies)
    requires body'.Keys == body.Keys
    ensures |body'| == |body|
  {
    assert |body'.Keys| == |body'| && |body.Keys| == |body|;
  }

  lemma EveryoneIsAbove(body: Bodies, th: Ref)
    requires th in body && body[th].Thread? && OpenList(body, th)
    ensures forall i :: 0 <= i < |body[th].open| ==> SlotOf(body, body[th].open[i]) >= 0
  {
    assert forall i :: 0 <= i < |body[th].open| ==> OpenAt(body, th, body[th].open[i]);
  }

  /** What is left of an open list is as it was. */
  lemma StillOpen(h0: Snapshot, h: Snapshot, th: Ref, n: nat)
    requires ClosedUpTo(h0, h, th, n) && OpenList(h0.body, th) && h.body[th].open != []
    ensures n < |h0.body[th].open| && SlotOf(h.body, h.body[th].open[0]) == SlotOf(h0.body, h0.body[th].open[n])
  {
    OpenIsDistinct(h0.body, th);
    assert OpenAt(h0.body, th, h0.body[th].open[n]);
  }

  /** The first `n` upvalues in the list have been closed, all at or above the level. */
  ghost predicate RoundsClosed(h0: Snapshot, h: Snapshot, th: Ref, level: nat, n: nat) {
    && ClosedUpTo(h0, h, th, n) && OpenList(h0.body, th)
    && forall i :: 0 <= i < n ==> SlotOf(h0.body, h0.body[th].open[i]) >= level
  }

  lemma OneMoreRound(h0: Snapshot, h: Snapshot, h': Snapshot, th: Ref, level: nat, n: nat)
    requires RoundsClosed(h0, h, th, level, n) && ClosedUpTo(h, h', th, 1)
    requires th in h.body && h.body[th].Thread? && h.body[th].open != [] &&
      SlotOf(h.body, h.body[th].open[0]) >= level
    ensures RoundsClosed(h0, h', th, level, n + 1)
  {
    hide ClosedUpTo, SlotOf, OpenList;
    StillOpen(h0, h, th, n);
    ClosedOneMore(h0, h, h', th, n);
  }

  /** The upvalues that are left are below the level, for the list is ordered. */
  lemma LevelReached(h0: Snapshot, h: Snapshot, th: Ref, level: nat, n: nat)
    requires RoundsClosed(h0, h, th, level, n) && th in h.body && h.body[th].Thread?
    requires h.body[th].open == [] || SlotOf(h.body, h.body[th].open[0]) < level
    ensures ClosedUpTo(h0, h, th, n) && n == |h0.body[th].open| - |h.body[th].open|
    ensures forall i :: 0 <= i < |h0.body[th].open| ==> (SlotOf(h0.body, h0.body[th].open[i]) >= level <==> i < n)
  {
    hide ClosedUpTo, SlotOf;
    ListIsSuffix(h0, h, th, n);
    if h.body[th].open != [] {
      StillOpen(h0, h, th, n);
    }
  }

  lemma ListIsSuffix(h: Snapshot, h': Snapshot, th: Ref, n: nat)
    requires ClosedUpTo(h, h', th, n)
    ensures th in h'.body && h'.body[th].Thread? && n <= |h.body[th].open| && h'.body[th].open == h.body[th].open[n..]
  {
  }

  lemma ListIsShorter(h: Snapshot, h': Snapshot, th: Ref)
    requires ClosedUpTo(h, h', th, 1)
    ensures th in h'.body && h'.body[th].Thread? && |h'.body[th].open| == |h.body[th].open| - 1
  {
  }

  lemma UnlinkedSize(body: Bodies, th: Ref, i: nat)
    requires th in body && body[th].Thread? && i < |body[th].open| && body[th].open[i] in body && body[th].open[i] != th
    ensures |Unlinked(body, th, i) - {body[th].open[i]}| == |body| - 1
  {
    assert Unlinked(body, th, i).Keys == body.Keys;
    assert |Unlinked(body, th, i)| == |Unlinked(body, th, i).Keys| == |body|;
    RemovedIsLess(Unlinked(body, th, i), body[th].open[i]);
  }

  lemma RemovedIsLess(body: Bodies, r: Ref)
    requires r in body
    ensures |body - {r}| == |body| - 1
  {
    assert (body - {r}).Keys == body.Keys - {r};
    assert |body.Keys| == |body| && |(body - {r}).Keys| == |body - {r}|;
  }
}
