/** References (lauxlib.c): a table hands out integer keys, and keeps the ones that were given back in a
    list inside itself. */
module LuaReferences {
  import opened LuaBasics
  import opened LuaResults
  import opened LuaTableChains
  import opened LuaTableContents
  import opened LuaTable

  const FREELIST_REF: int := 0
  const LUA_REFNIL: int := -1

  /** `lua_tointeger`, for the values of the free list. */
  function ToInteger(v: TValue): int { if v.Int? then v.i else 0 }

  /** The integer keys of a table. */
  type View = int -> TValue

  /** `free` is the list that starts at the key FREELIST_REF, of references that can be given out again;
      `lost` are those that a failure of `luaL_unref` has left without a value; the other references up to `n`
      lead to values, and there is nothing after `n`. */
  ghost predicate Keeps(at: View, free: seq<nat>, lost: set<nat>, n: nat) {
    && Distinct(free) && (forall i :: 0 <= i < |free| ==> 1 <= free[i] <= n && free[i] !in lost)
    && ToInteger(at(FREELIST_REF)) == LinkAt(free, 0)
    && (forall i :: 0 <= i < |free| ==> Linked(at, free, i))
    && (forall ref :: ref in lost ==> 1 <= ref <= n && at(ref) == Nil)
    && (forall ref: nat :: IsHeld(free, lost, n, ref) ==> at(ref) != Nil)
    && (forall ref: nat :: ref > n ==> at(ref) == Nil)
  }

  ghost predicate Linked(at: View, free: seq<nat>, i: nat)
    requires i < |free|
  {
    ToInteger(at(free[i])) == LinkAt(free, i + 1)
  }

  /** The link that leads to position `i` of the list, or zero at its end. */
  ghost function LinkAt(free: seq<nat>, i: nat): int {
    if i < |free| then free[i] else 0
  }

  /** A reference that has been given out and not given back. */
  ghost predicate IsHeld(free: seq<nat>, lost: set<nat>, n: nat, ref: int) {
    1 <= ref <= n && ref !in free && ref as nat !in lost
  }

  /** Two keys, at most, have changed. */
  ghost predicate Changed(at: View, at': View, first: TValue, ref: int, v: TValue) {
    forall k :: at'(k) == if k == ref then v else if k == FREELIST_REF then first else at(k)
  }

  lemma TakenFromList(at: View, at': View, free: seq<nat>, lost: set<nat>, n: nat, ref: int, v: TValue)
    requires Keeps(at, free, lost, n) && ref == ToInteger(at(FREELIST_REF)) != 0 && v != Nil &&
      Changed(at, at', at(ref), ref, v)
    ensures free != [] && free[0] == ref && Keeps(at', free[1..], lost, n) && IsHeld(free[1..], lost, n, ref) &&
      !IsHeld(free, lost, n, ref)
  {
    assert Linked(at, free, 0);
    forall i | 0 <= i < |free[1..]| ensures Linked(at', free[1..], i) {
      assert Linked(at, free, i + 1);
    }
    assert free == [free[0]] + free[1..];
  }

  lemma TakenInVain(at: View, at': View, free: seq<nat>, lost: set<nat>, n: nat, ref: int)
    requires Keeps(at, free, lost, n) && ref == ToInteger(at(FREELIST_REF)) != 0 && at(ref) == Nil
    requires forall k :: at'(k) == if k == FREELIST_REF then Nil else at(k)
    ensures free == [ref] && Keeps(at', [], lost + {ref}, n)
  {
    assert Linked(at, free, 0);
  }

  /** The keys that the free list needs are in the table. */
  lemma ListIsThere(at: View, free: seq<nat>, lost: set<nat>, n: nat)
    requires Keeps(at, free, lost, n) && ToInteger(at(FREELIST_REF)) != 0
    ensures at(FREELIST_REF) != Nil && free != [] && free[0] == ToInteger(at(FREELIST_REF))
  {
  }

  lemma AddedAtBorder(at: View, at': View, free: seq<nat>, lost: set<nat>, n: nat, b: nat, v: TValue)
    requires Keeps(at, free, lost, n) && free == [] && v != Nil && (b == n || b + 1 in lost) &&
      Changed(at, at', at(FREELIST_REF), b + 1, v)
    ensures !IsHeld(free, lost, n, b + 1)
    ensures var lost', n' := lost - {b + 1}, if b == n then n + 1 else n;
      && Keeps(at', free, lost', n')
      && forall ref :: IsHeld(free, lost', n', ref) == (ref == b + 1 || IsHeld(free, lost, n, ref))
  {
  }

  lemma GivenBack(at: View, at': View, free: seq<nat>, lost: set<nat>, n: nat, ref: int)
    requires Keeps(at, free, lost, n) && IsHeld(free, lost, n, ref) && Changed(at, at', Int(ref), ref, at(FREELIST_REF))
    ensures Keeps(at', [ref] + free, lost, n)
  {
    forall i | 0 <= i < |free| + 1 ensures Linked(at', [ref] + free, i) {
      if i > 0 {
        assert Linked(at, free, i - 1);
      }
    }
  }

  /** The head of the free list could not be stored: the reference has lost its value, and is not in the list. */
  lemma GivenUp(at: View, at': View, free: seq<nat>, lost: set<nat>, n: nat, ref: int)
    requires Keeps(at, free, lost, n) && IsHeld(free, lost, n, ref) && at(FREELIST_REF) == Nil
    requires Changed(at, at', at(FREELIST_REF), ref, Nil)
    ensures Keeps(at', free, lost + {ref}, n) && free == []
  {
  }

  class References {
    const t: Table
    ghost var free: seq<nat>
    ghost var lost: set<nat>
    ghost var n: nat

    ghost function At(): View
      reads t
    {
      var arr, node := t.arr, t.node;
      k => Content(arr, node, Int(k))
    }

    ghost predicate Valid()
      reads this, t
    {
      t.Valid() && Keeps(At(), free, lost, n)
    }

    ghost predicate Held(ref: int)
      reads this
    {
      IsHeld(free, lost, n, ref)
    }

    constructor (t: Table)
      requires t.Valid() && forall ref: nat :: t.Lookup(Int(ref)) == Nil
      ensures Valid() && this.t == t && lost == {} && forall ref :: !Held(ref)
    {
      hide Table.Valid, Content;
      this.t, free, lost, n := t, [], {}, 0;
      new;
      assert forall ref: nat :: At()(ref) == t.Lookup(Int(ref));
    }

    /** `lua_rawgeti`. */
    method Fetch(k: int) returns (v: TValue)
      requires t.Valid()
      ensures v == At()(k)
    {
      v := t.GetNum(k);
    }

    /** `lua_rawseti`: it fails only for a new key, and with too many keys in the table. */
    method Put(k: int, v: TValue) returns (r: Result<()>)
      requires t.Valid()
      modifies t
      ensures t.Valid() && forall j :: At()(j) == if r.Success? && j == k then v else old(At()(j))
      ensures r.Failure? ==> r.error == "table overflow" && old(t.Used()) >= MAXASIZE && old(At()(k)) == Nil
      ensures t.Used() <= old(t.Used()) + if r.Success? && v != Nil && old(At()(k)) == Nil then 1 else 0
    {
      hide Content, Table.Valid, Table.Used, Table.IsSlotOf;
      ghost var arr, node := t.arr, t.node;
      HasSlot(k);
      assert old(t.Lookup(Int(k))) == old(At()(k));
      r := t.Set(Int(k), v);
      forall j ensures At()(j) == if r.Success? && j == k then v else Content(arr, node, Int(j)) {
        assert t.Lookup(Int(j)) == if r.Success? && j == k then v else old(t.Lookup(Int(j)));
      }
    }

    lemma HasSlot(k: int)
      ensures At()(k) != Nil ==> !t.IsSlotOf(NoSlot, Int(k))
    {
    }

    /** With no free reference a border of the table is the number of references, unless references have been lost:
        then it may be in front of one of them. */
    lemma UniqueBorder(b: nat)
      requires Valid() && free == [] && t.Boundary(b)
      ensures b == n || b + 1 in lost
    {
      hide Content;
      assert At()(b) == t.Lookup(Int(b)) && At()(b + 1) == t.Lookup(Int(b + 1));
      assert !IsHeld(free, lost, n, b + 1);
    }

    /** All references lead to what they led to, but for `ref`. */
    ghost predicate OthersStay(held: iset<int>, at: View, ref: int)
      reads this, t
    {
      forall k :: k != ref ==> (Held(k) <==> k in held) && (Held(k) ==> At()(k) == at(k))
    }

    ghost function AllHeld(): iset<int>
      reads this
    {
      iset k: int | Held(k)
    }

    /** `luaL_ref`: the reference is a new one, it leads to the value, and the others are as they were. */
    method Ref(v: TValue) returns (r: Result<int>)
      requires Valid()
      modifies this, t
      ensures Valid() && t.Used() <= old(t.Used()) + 1
      ensures v == Nil ==> r == Success(LUA_REFNIL) && unchanged(this) && unchanged(t)
      ensures v == Nil ==> r.value < 0 && !Held(r.value)
      ensures v != Nil && r.Success? ==> !old(Held(r.value)) && Held(r.value) && At()(r.value) == v
      ensures v != Nil && r.Success? ==> OthersStay(old(AllHeld()), old(At()), r.value)
      ensures r.Failure? ==> r.error == "table overflow" && old(t.Used()) >= MAXASIZE
      ensures r.Failure? ==> OthersStay(old(AllHeld()), old(At()), FREELIST_REF)
    {
      hide Content, Table.Valid, Table.Used, Table.IsSlotOf, Keeps;
      if v == Nil {
        return Success(LUA_REFNIL);
      }
      ghost var at := At();
      var first := Fetch(FREELIST_REF);
      var ref := ToInteger(first);
      if ref != 0 {
        r := TakeFree(v, ref);
      } else {
        NoneFree(at, free, lost, n);
        var b := t.Getn();
        UniqueBorder(b);
        r := TakeNew(v, b);
      }
    }

    /** The last reference of the free list may lead to nil: it is lost if it finds no place in the table again. */
    method TakeFree(v: TValue, ref: int) returns (r: Result<int>)
      requires Valid() && v != Nil && ref == ToInteger(At()(FREELIST_REF)) != 0
      modifies this, t
      ensures Valid() && t.Used() <= old(t.Used()) + 1
      ensures r.Success? ==> r.value == ref && !old(Held(ref)) && Held(ref) && At()(ref) == v
      ensures r.Success? ==> OthersStay(old(AllHeld()), old(At()), ref)
      ensures r.Failure? ==> r.error == "table overflow" && old(t.Used()) >= MAXASIZE
      ensures r.Failure? ==> OthersStay(old(AllHeld()), old(At()), FREELIST_REF)
    {
      hide Content, Table.Valid, Table.Used, Table.IsSlotOf, Keeps;
      ghost var at := At();
      ListIsThere(at, free, lost, n);
      assert free == [ref] + free[1..];
      var next := Fetch(ref);
      var stored := Put(FREELIST_REF, next);
      stored := Put(ref, v);
      if stored.Failure? {
        TakenInVain(at, At(), free, lost, n, ref);
        free, lost := free[1..], lost + {ref};
        return Failure(stored.error);
      }
      TakenFromList(at, At(), free, lost, n, ref, v);
      free := free[1..];
      return Success(ref);
    }

    method TakeNew(v: TValue, b: nat) returns (r: Result<int>)
      requires Valid() && v != Nil && free == [] && (b == n || b + 1 in lost)
      modifies this, t
      ensures Valid() && t.Used() <= old(t.Used()) + 1
      ensures r.Success? ==> r.value == b + 1 && !old(Held(b + 1)) && Held(b + 1) && At()(b + 1) == v
      ensures r.Success? ==> OthersStay(old(AllHeld()), old(At()), b + 1)
      ensures r.Failure? ==> r.error == "table overflow" && old(t.Used()) >= MAXASIZE
      ensures r.Failure? ==> OthersStay(old(AllHeld()), old(At()), FREELIST_REF)
    {
      hide Content, Table.Valid, Table.Used, Table.IsSlotOf, Keeps;
      ghost var at := At();
      var ref: nat := b + 1;
      var stored := Put(ref, v);
      if stored.Failure? {
        SameKeeps(at, At(), free, lost, n);
        return Failure(stored.error);
      }
      AddedAtBorder(at, At(), free, lost, n, b, v);
      lost, n := lost - {ref}, if b == n then n + 1 else n;
      return Success(ref);
    }

    /** `luaL_unref`: the reference can be given out again. If the head of the free list finds no place in the
        table, the reference is gone all the same. */
    method Unref(ref: int) returns (r: Result<()>)
      requires Valid() && (Held(ref) || ref < 0)
      modifies this, t
      ensures Valid() && !Held(ref) && t.Used() <= old(t.Used()) + 1
      ensures ref < 0 ==> r.Success? && unchanged(this) && unchanged(t)
      ensures OthersStay(old(AllHeld()), old(At()), ref)
      ensures r.Success? && ref >= 0 ==> free == [ref] + old(free) && lost == old(lost)
      ensures r.Failure? ==> r.error == "table overflow" && old(t.Used()) >= MAXASIZE && old(free) == []
      ensures r.Failure? ==> lost == old(lost) + {ref}
    {
      hide Content, Table.Valid, Table.Used, Table.IsSlotOf, Keeps;
      if ref >= 0 {
        ghost var at := At();
        HeldHasValue(at, free, lost, n, ref);
        var first := Fetch(FREELIST_REF);
        var stored := Put(ref, first);
        stored := Put(FREELIST_REF, Int(ref));
        if stored.Failure? {
          GivenUp(at, At(), free, lost, n, ref);
          lost := lost + {ref};
          return Failure(stored.error);
        }
        GivenBack(at, At(), free, lost, n, ref);
        free := [ref] + free;
      }
      return Success(());
    }
  }

  lemma NoneFree(at: View, free: seq<nat>, lost: set<nat>, n: nat)
    requires Keeps(at, free, lost, n) && ToInteger(at(FREELIST_REF)) == 0
    ensures free == []
  {
  }

  lemma SameKeeps(at: View, at': View, free: seq<nat>, lost: set<nat>, n: nat)
    requires Keeps(at, free, lost, n) && forall k :: at'(k) == at(k)
    ensures Keeps(at', free, lost, n)
  {
    forall i | 0 <= i < |free| ensures Linked(at', free, i) {
      assert Linked(at, free, i);
    }
  }

  lemma HeldHasValue(at: View, free: seq<nat>, lost: set<nat>, n: nat, ref: int)
    requires Keeps(at, free, lost, n) && IsHeld(free, lost, n, ref)
    ensures at(ref) != Nil && ref != FREELIST_REF
  {
  }
}
