/** The stack of a thread (ldo.c, and the end of `traversestack` in lgc.c): it moves when it grows or
    shrinks, and every pointer into it moves with it. */
module LuaStack {
  import opened LuaResults
  import LuaHeap

  type TValue = LuaHeap.Value

  /** A pointer into a block of memory. */
  datatype StkId = StkId(block: array<TValue>, index: nat)

  datatype CallInfo = CallInfo(base: StkId, func: StkId, top: StkId)

  datatype CallInfoId = CallInfoId(block: array<CallInfo>, index: nat)

  /** An open upvalue. */
  class UpVal {
    var v: StkId

    constructor (v: StkId)
      ensures this.v == v
    {
      this.v := v;
    }
  }

  const EXTRA_STACK: nat := 5
  const BASIC_STACK_SIZE: nat := 40
  const BASIC_CI_SIZE: nat := 8
  const LUAI_MAXCALLS: nat := 20000
  const LUA_MINSTACK: nat := 20

  /** A call frame, as offsets into the stack. */
  datatype Frame = Frame(base: nat, func: nat, top: nat)

  /** What the program sees of a stack: the values in use, and offsets in place of pointers. */
  datatype View = View(values: seq<TValue>, top: nat, base: nat, frames: seq<Frame>, upvalues: seq<(UpVal, nat)>)

  function FrameOf(c: CallInfo): Frame { Frame(c.base.index, c.func.index, c.top.index) }

  function FramesOf(cs: seq<CallInfo>): seq<Frame> {
    seq(|cs|, i requires 0 <= i < |cs| => FrameOf(cs[i]))
  }

  /** `luaM_realloc`: the block moves; what is new in it is not initialized, and holds `junk`. */
  method Realloc<T>(block: array<T>, size: nat, junk: T) returns (moved: array<T>)
    ensures fresh(moved) && moved.Length == size
    ensures forall i :: 0 <= i < size && i < block.Length ==> moved[i] == block[i]
  {
    moved := new T[size](_ => junk);
    var i := 0;
    while i < size && i < block.Length
      invariant i <= size && i <= block.Length && forall j :: 0 <= j < i ==> moved[j] == block[j]
    {
      moved[i] := block[i];
      i := i + 1;
    }
  }

  class LuaState {
    var stack: array<TValue>
    var stackLast: StkId
    var stacksize: nat
    var top: StkId
    var base: StkId
    var baseCi: array<CallInfo>
    var ci: CallInfoId
    var endCi: CallInfoId
    var sizeCi: nat
    var openupval: seq<UpVal>

    /** `stack_init`: the first frame has no function. */
    constructor ()
      ensures Valid() && top.index == base.index == 1 && Frames() == [Frame(1, 0, 1 + LUA_MINSTACK)] && openupval == []
      ensures stack[0] == LuaHeap.Nil && fresh(stack) && fresh(baseCi)
    {
      stacksize, sizeCi := BASIC_STACK_SIZE + EXTRA_STACK, BASIC_CI_SIZE;
      var block := new TValue[BASIC_STACK_SIZE + EXTRA_STACK](_ => LuaHeap.Nil);
      var first := CallInfo(StkId(block, 1), StkId(block, 0), StkId(block, 1 + LUA_MINSTACK));
      var calls := new CallInfo[BASIC_CI_SIZE](_ => first);
      stack, stackLast := block, StkId(block, BASIC_STACK_SIZE - 1);
      top, base := StkId(block, 1), StkId(block, 1);
      baseCi, ci, endCi := calls, CallInfoId(calls, 0), CallInfoId(calls, BASIC_CI_SIZE - 1);
      openupval := [];
    }

    /** A pointer into the stack, not beyond its last free slot. */
    ghost predicate Inside(p: StkId)
      reads this
    {
      p.block == stack && p.index + EXTRA_STACK < stacksize
    }

    ghost predicate FrameInside(c: CallInfo)
      reads this
    {
      Inside(c.base) && Inside(c.func) && Inside(c.top) && c.func.index < c.base.index <= c.top.index
    }

    /** The end of the part in use: `lim` in `traversestack`. */
    ghost predicate IsLimit(lim: nat)
      reads this, baseCi
      requires ci.index < baseCi.Length
    {
      && top.index <= lim && (forall i :: 0 <= i <= ci.index ==> baseCi[i].top.index <= lim)
      && (lim == top.index || exists i :: 0 <= i <= ci.index && baseCi[i].top.index == lim)
    }

    ghost predicate CallsOk()
      reads this, baseCi
    {
      && CallsShape() && forall i :: 0 <= i <= ci.index ==> FrameInside(baseCi[i])
    }

    /** The open upvalues, in descending order of their slots. */
    ghost predicate UpvaluesOk()
      reads this, openupval
    {
      && (forall i :: 0 <= i < |openupval| ==> Inside(openupval[i].v))
      && (forall i, j :: 0 <= i < j < |openupval| ==> openupval[j].v.index < openupval[i].v.index)
    }

    /** No pointer leads anywhere but into the present stack, and into its part in use. */
    ghost predicate Valid()
      reads this, baseCi, openupval
    {
      && stacksize > EXTRA_STACK && stack.Length == stacksize
      && stackLast == StkId(stack, stacksize - EXTRA_STACK - 1)
      && Inside(top) && Inside(base) && base.index <= top.index && CallsOk() && UpvaluesOk()
      && forall i :: 0 <= i < |openupval| ==> InFrame(openupval[i].v.index)
    }

    /** The slot belongs to an active call. */
    ghost predicate InFrame(slot: nat)
      requires ci.index < baseCi.Length
      reads this, baseCi
    {
      exists i :: 0 <= i <= ci.index && slot < baseCi[i].top.index
    }

    ghost function Limit(): (lim: nat)
      reads this, baseCi
      requires ci.index < baseCi.Length
      ensures IsLimit(lim)
    {
      LimitUpTo(ci.index + 1)
    }

    ghost function LimitUpTo(n: nat): (lim: nat)
      reads this, baseCi
      requires n <= baseCi.Length
      ensures top.index <= lim && forall i :: 0 <= i < n ==> baseCi[i].top.index <= lim
      ensures lim == top.index || exists i :: 0 <= i < n && baseCi[i].top.index == lim
    {
      if n == 0 then top.index
      else
        var lim := LimitUpTo(n - 1);
        if lim < baseCi[n - 1].top.index then baseCi[n - 1].top.index else lim
    }

    ghost function Frames(): (fs: seq<Frame>)
      reads this, baseCi
      requires ci.index < baseCi.Length
      ensures |fs| == ci.index + 1 && forall i :: 0 <= i <= ci.index ==> fs[i] == FrameOf(baseCi[i])
    {
      FramesOf(baseCi[..ci.index + 1])
    }

    ghost function Upvalues(): (us: seq<(UpVal, nat)>)
      reads this, openupval
      ensures |us| == |openupval| && forall i :: 0 <= i < |us| ==> us[i] == (openupval[i], openupval[i].v.index)
    {
      seq(|openupval|, i requires 0 <= i < |openupval| reads this, openupval => (openupval[i], openupval[i].v.index))
    }

    ghost function Seen(): View
      reads this, baseCi, openupval, stack
      requires Valid()
    {
      View(stack[..Limit()], top.index, base.index, Frames(), Upvalues())
    }

    /** What `luaM_realloc` has done: the pointers still lead into `block`, but the stack is elsewhere. */
    ghost predicate Moved(block: array<TValue>, size: nat)
      reads this, baseCi, openupval
    {
      && stack != block && stacksize == stack.Length > EXTRA_STACK
      && top.block == base.block == block && CallsShape() && size + EXTRA_STACK < stacksize
      && (forall i :: 0 <= i <= ci.index ==> FrameIn(baseCi[i], block, size))
      && (forall i :: 0 <= i < |openupval| ==> openupval[i].v.block == block && openupval[i].v.index <= size)
      && (forall i, j :: 0 <= i < j < |openupval| ==> openupval[j].v.index < openupval[i].v.index)
      && top.index <= size && base.index <= size
    }

    ghost predicate FrameIn(c: CallInfo, block: array<TValue>, size: nat) {
      && c.base.block == block && c.func.block == block && c.top.block == block
      && c.func.index < c.base.index <= c.top.index <= size
    }

    /** `correctstack`. */
    method CorrectStack(oldstack: array<TValue>, ghost size: nat)
      requires Moved(oldstack, size)
      modifies this`top, this`base, baseCi, openupval
      ensures top == StkId(stack, old(top.index)) && base == StkId(stack, old(base.index))
      ensures forall i :: 0 <= i <= ci.index ==> baseCi[i] == MovedFrame(old(baseCi[i]))
      ensures forall i :: 0 <= i < |openupval| ==> openupval[i].v == StkId(stack, old(openupval[i].v.index))
    {
      top := StkId(stack, top.index);
      assert forall i, j :: 0 <= i < j < |openupval| ==> openupval[i] != openupval[j];
      var up := 0;
      while up < |openupval|
        invariant up <= |openupval| && top == StkId(stack, old(top.index)) && base == old(base)
        invariant forall i :: 0 <= i < up ==> openupval[i].v == StkId(stack, old(openupval[i].v.index))
        invariant forall i :: up <= i < |openupval| ==> openupval[i].v == old(openupval[i].v)
        invariant baseCi[..] == old(baseCi[..])
      {
        openupval[up].v := StkId(stack, openupval[up].v.index);
        up := up + 1;
      }
      var i := 0;
      while i <= ci.index
        invariant i <= ci.index + 1 && top == StkId(stack, old(top.index)) && base == old(base)
        invariant forall j :: 0 <= j < i ==> baseCi[j] == MovedFrame(old(baseCi[j]))
        invariant forall j :: i <= j < baseCi.Length ==> baseCi[j] == old(baseCi[j])
        invariant forall j :: 0 <= j < |openupval| ==> openupval[j].v == StkId(stack, old(openupval[j].v.index))
      {
        baseCi[i] := MovedFrame(baseCi[i]);
        i := i + 1;
      }
      base := StkId(stack, base.index);
    }

    function MovedFrame(c: CallInfo): CallInfo
      reads this
    {
      CallInfo(StkId(stack, c.base.index), StkId(stack, c.func.index), StkId(stack, c.top.index))
    }

    /** A view of a stack of which `size` slots may be in use. */
    static ghost predicate ViewOk(v: View, size: nat) {
      && |v.frames| > 0 && v.base <= v.top <= |v.values| <= size
      && (forall i :: 0 <= i < |v.frames| ==> v.frames[i].func < v.frames[i].base <= v.frames[i].top <= |v.values|)
      && (|v.values| == v.top || exists i :: 0 <= i < |v.frames| && v.frames[i].top == |v.values|)
      && (forall i :: 0 <= i < |v.upvalues| ==> exists j :: 0 <= j < |v.frames| && v.upvalues[i].1 < v.frames[j].top)
      && (forall i, j :: 0 <= i < j < |v.upvalues| ==> v.upvalues[j].1 < v.upvalues[i].1)
    }

    /** The pointers are those of `v`, in the present block. */
    ghost predicate Corrected(v: View, size: nat)
      reads this, baseCi, openupval, stack
    {
      && stack.Length == stacksize == size + 1 + EXTRA_STACK && stackLast == StkId(stack, size)
      && CallsShape() && top == StkId(stack, v.top) && base == StkId(stack, v.base)
      && |v.frames| == ci.index + 1 && (forall i :: 0 <= i <= ci.index ==> baseCi[i] == FrameAt(v.frames[i]))
      && |v.upvalues| == |openupval|
      && (forall i :: 0 <= i < |openupval| ==> v.upvalues[i].0 == openupval[i])
      && (forall i :: 0 <= i < |openupval| ==> openupval[i].v == StkId(stack, v.upvalues[i].1))
      && |v.values| <= stack.Length && stack[..|v.values|] == v.values
    }

    ghost function FrameAt(f: Frame): CallInfo
      reads this
    {
      CallInfo(StkId(stack, f.base), StkId(stack, f.func), StkId(stack, f.top))
    }

    lemma SeenIsOk(size: nat)
      requires Valid() && Limit() <= size
      ensures ViewOk(Seen(), size)
    {
      var v := Seen();
      forall i | 0 <= i < |v.upvalues| ensures exists j :: 0 <= j < |v.frames| && v.upvalues[i].1 < v.frames[j].top {
        assert InFrame(openupval[i].v.index);
        var j :| 0 <= j <= ci.index && openupval[i].v.index < baseCi[j].top.index;
        assert v.upvalues[i].1 < v.frames[j].top;
      }
    }

    lemma CorrectedIsValid(v: View, size: nat)
      requires ViewOk(v, size) && Corrected(v, size)
      ensures Valid() && Seen() == v
    {
      forall i | 0 <= i < |openupval| ensures InFrame(openupval[i].v.index) {
        var j :| 0 <= j < |v.frames| && v.upvalues[i].1 < v.frames[j].top;
        assert openupval[i].v.index < baseCi[j].top.index;
      }
      LimitIs(v, size);
      assert Frames() == v.frames;
      assert Upvalues() == v.upvalues;
    }

    lemma LimitIs(v: View, size: nat)
      requires ViewOk(v, size) && Corrected(v, size)
      ensures Limit() == |v.values|
    {
      assert forall i :: 0 <= i <= ci.index ==> baseCi[i].top.index == v.frames[i].top;
    }

    lemma MayMove(size: nat)
      requires Valid() && Limit() <= size
      ensures forall i :: 0 <= i <= ci.index ==> FrameIn(baseCi[i], stack, size)
      ensures forall i :: 0 <= i < |openupval| ==> openupval[i].v.block == stack && openupval[i].v.index <= size
      ensures top.index <= size && base.index <= size
    {
    }

    /** `luaD_reallocstack`: what the program sees stays the same if its part of the stack fits. */
    method ReallocStack(newsize: nat)
      requires Valid() && Limit() <= newsize
      modifies this, baseCi, openupval
      ensures Valid() && Seen() == old(Seen()) && stackLast.index == newsize && fresh(stack)
      ensures stacksize == newsize + 1 + EXTRA_STACK
      ensures unchanged(this`ci, this`endCi, this`sizeCi, this`baseCi, this`openupval)
    {
      hide Valid, ViewOk;
      ghost var v := Seen();
      SeenIsOk(newsize);
      var oldstack := stack;
      MoveStack(newsize, v);
      CorrectStack(oldstack, newsize);
      CorrectedIsValid(v, newsize);
    }

    method MoveStack(newsize: nat, ghost v: View)
      requires Valid() && Limit() <= newsize && v == Seen()
      modifies this`stack, this`stacksize, this`stackLast
      ensures stack.Length == stacksize == newsize + 1 + EXTRA_STACK && stackLast == StkId(stack, newsize)
      ensures fresh(stack) && |v.values| <= stack.Length && stack[..|v.values|] == v.values
      ensures Moved(old(stack), newsize)
    {
      MayMove(newsize);
      var realsize := newsize + 1 + EXTRA_STACK;
      stack := Realloc(stack, realsize, LuaHeap.Plain);
      stacksize := realsize;
      stackLast := StkId(stack, newsize);
    }

    /** `luaD_growstack`. */
    method GrowStack(n: nat)
      requires Valid()
      modifies this, baseCi, openupval
      ensures Valid() && Seen() == old(Seen()) && stackLast.index - top.index > n && fresh(stack)
      ensures unchanged(this`ci, this`endCi, this`sizeCi, this`baseCi, this`openupval)
    {
      LimitIsInside();
      if n <= stacksize {
        ReallocStack(2 * stacksize);
      } else {
        ReallocStack(stacksize + n);
      }
    }

    lemma LimitIsInside()
      requires Valid()
      ensures Limit() <= stackLast.index && top.index <= stackLast.index
    {
    }

    /** `luaD_checkstack`: room for `n` more values, which may move the stack. */
    method CheckStack(n: nat)
      requires Valid()
      modifies this, baseCi, openupval
      ensures Valid() && Seen() == old(Seen()) && stackLast.index - top.index > n
      ensures unchanged(this`ci, this`endCi, this`sizeCi, this`baseCi, this`openupval)
      ensures stack == old(stack) || fresh(stack)
    {
      hide Valid;
      if stackLast.index - top.index <= n {
        GrowStack(n);
      }
    }

    /** `luaD_reallocCI`: the call frames move, as many as are in use. */
    method ReallocCI(newsize: nat)
      requires Valid() && ci.index < newsize
      modifies this`baseCi, this`ci, this`endCi, this`sizeCi
      ensures Valid() && Seen() == old(Seen()) && sizeCi == newsize && ci.index == old(ci.index) && fresh(baseCi)
    {
      hide Valid, ViewOk, Corrected;
      ghost var v := Seen();
      LimitIsInside();
      SeenIsOk(stackLast.index);
      SeenIsCorrected();
      MoveCalls(newsize, v);
      CorrectedIsValid(v, stackLast.index);
    }

    lemma SeenIsCorrected()
      requires Valid()
      ensures Corrected(Seen(), stackLast.index)
    {
    }

    method MoveCalls(newsize: nat, ghost v: View)
      requires Corrected(v, stackLast.index) && ci.index < newsize
      modifies this`baseCi, this`ci, this`endCi, this`sizeCi
      ensures Corrected(v, stackLast.index) && sizeCi == newsize && ci.index == old(ci.index) && fresh(baseCi)
    {
      baseCi := Realloc(baseCi, newsize, baseCi[0]);
      sizeCi := newsize;
      ci := CallInfoId(baseCi, ci.index);
      endCi := CallInfoId(baseCi, sizeCi - 1);
    }

    /** `inc_ci`, with `growCI`: the next frame, which the caller fills. */
    method IncCI() returns (r: Result<CallInfoId>)
      requires Valid()
      modifies this`baseCi, this`ci, this`endCi, this`sizeCi
      ensures r.Failure? ==> Valid() && Seen() == old(Seen())
      ensures r.Failure? <==> old(ci.index + 1 == sizeCi && 2 * sizeCi > LUAI_MAXCALLS)
      ensures r.Failure? ==>
        r.error == if old(sizeCi) > LUAI_MAXCALLS then "error in error handling" else "stack overflow"
      ensures r.Success? ==> CallsShape() && ci.index == old(ci.index) + 1 && r.value == ci
      ensures r.Success? ==> forall i :: 0 <= i < ci.index ==> baseCi[i] == old(baseCi[i])
      ensures baseCi == old(baseCi) || fresh(baseCi)
    {
      if ci == endCi {
        if sizeCi > LUAI_MAXCALLS {
          return Failure("error in error handling");
        }
        ReallocCI(2 * sizeCi);
        if sizeCi > LUAI_MAXCALLS {
          return Failure("stack overflow");
        }
      }
      ci := CallInfoId(ci.block, ci.index + 1);
      return Success(ci);
    }

    /** The array of call frames, whatever the frames. */
    ghost predicate CallsShape()
      reads this
    {
      && baseCi.Length == sizeCi && ci.block == baseCi && ci.index < sizeCi
      && endCi == CallInfoId(baseCi, sizeCi - 1)
    }

    /** A new frame on top of the others. */
    method PushFrame(func: nat, limit: nat) returns (r: Result<()>)
      requires Valid() && func < top.index && func < limit <= stackLast.index
      modifies this`baseCi, this`ci, this`endCi, this`sizeCi, this`base, baseCi
      ensures Valid() && Upvalues() == old(Upvalues())
      ensures r.Failure? <==> old(ci.index + 1 == sizeCi && 2 * sizeCi > LUAI_MAXCALLS)
      ensures r.Failure? ==> base == old(base) && Frames() == old(Frames())
      ensures r.Success? ==>
        base == StkId(stack, func + 1) && Frames() == old(Frames()) + [Frame(func + 1, func, limit)]
    {
      hide ViewOk, Valid;
      ghost var v := Seen();
      LimitIsInside();
      SeenIsOk(stackLast.index);
      SeenIs();
      SeenIsCorrected();
      var c :- IncCI();
      c.block[c.index] := CallInfo(StkId(stack, func + 1), StkId(stack, func), StkId(stack, limit));
      base := StkId(stack, func + 1);
      FrameAdded(v, func, limit);
      return Success(());
    }

    lemma FrameAdded(v: View, func: nat, limit: nat)
      requires ViewOk(v, stackLast.index) && func < v.top && func < limit <= stackLast.index
      requires stack.Length == stacksize == stackLast.index + 1 + EXTRA_STACK && stackLast.block == stack
      requires CallsShape() && ci.index == |v.frames| && baseCi[ci.index] == FrameAt(Frame(func + 1, func, limit))
      requires forall i :: 0 <= i < ci.index ==> baseCi[i] == FrameAt(v.frames[i])
      requires top == StkId(stack, v.top) && base == StkId(stack, func + 1)
      requires |v.upvalues| == |openupval| && forall i :: 0 <= i < |openupval| ==>
        v.upvalues[i].0 == openupval[i] && openupval[i].v == StkId(stack, v.upvalues[i].1)
      ensures Valid() && Frames() == v.frames + [Frame(func + 1, func, limit)] && Upvalues() == v.upvalues
    {
      assert Frames() == v.frames + [Frame(func + 1, func, limit)];
      assert Upvalues() == v.upvalues;
      StillInFrames(v.frames);
      forall i | 0 <= i < |openupval| ensures InFrame(openupval[i].v.index) {
        assert exists j :: 0 <= j < |v.frames| && v.upvalues[i].1 < v.frames[j].top;
      }
    }

    /** Upvalues stay in their frames when there are more frames. */
    lemma StillInFrames(frames: seq<Frame>)
      requires ci.index < baseCi.Length && frames <= Frames()
      ensures forall slot: nat :: (exists j :: 0 <= j < |frames| && slot < frames[j].top) ==> InFrame(slot)
    {
      forall slot: nat | exists j :: 0 <= j < |frames| && slot < frames[j].top ensures InFrame(slot) {
        var j :| 0 <= j < |frames| && slot < frames[j].top;
        assert slot < baseCi[j].top.index;
      }
    }

    /** Sets the slots from `from` to before `to` to nil. */
    method SetNil(from: nat, to: nat)
      requires from <= to <= stack.Length
      modifies stack
      ensures forall i :: 0 <= i < stack.Length ==> stack[i] == if from <= i < to then LuaHeap.Nil else old(stack[i])
    {
      var o := from;
      while o < to
        invariant from <= o <= to
        invariant forall i :: 0 <= i < stack.Length ==> stack[i] == if from <= i < o then LuaHeap.Nil else old(stack[i])
      {
        stack[o] := LuaHeap.Nil;
        o := o + 1;
      }
    }

    /** `luaD_precall`, for a Lua function without variable arguments that the program finds at `func`: its frame
        begins behind it, with the arguments it takes and nil in all other registers. The pointer is kept as
        an offset while the stack may move. */
    method Precall(func: StkId, numparams: nat, maxstacksize: nat) returns (r: Result<()>)
      requires Valid() && func.block == stack && base.index <= func.index < top.index && numparams <= maxstacksize
      modifies this, baseCi, openupval, stack
      ensures Valid() && Upvalues() == old(Upvalues())
      ensures r.Failure? <==> old(ci.index + 1 == sizeCi && 2 * sizeCi > LUAI_MAXCALLS)
      ensures r.Success? ==> Frames() == old(Frames()) + [Frame(func.index + 1, func.index, top.index)]
      ensures r.Success? ==> base == StkId(stack, func.index + 1) && top.index == base.index + maxstacksize
      ensures r.Success? ==> forall i :: 0 <= i < top.index ==>
        stack[i] == if i < old(top.index) && i <= func.index + numparams then old(stack)[i] else LuaHeap.Nil
    {
      hide Valid, Seen;
      ghost var v := Seen();
      SeenIs();
      var funcr := func.index;  // savestack
      CheckStack(maxstacksize);
      SeenIs();
      LowerTop(funcr + 1 + numparams);
      var limit := funcr + 1 + maxstacksize;
      var _ :- PushFrame(funcr, limit);
      ClearRegisters(limit);
      return Success(());
    }

    /** What the view says of the fields. */
    lemma SeenIs()
      requires Valid()
      ensures var v := Seen();
        && v.top == top.index <= |v.values| <= stackLast.index < stack.Length && v.values == stack[..|v.values|]
        && v.base == base.index && v.frames == Frames() && v.upvalues == Upvalues()
    {
    }

    method LowerTop(t: nat)
      requires Valid() && base.index <= t
      modifies this`top
      ensures Valid() && top == StkId(stack, if old(top.index) > t then t else old(top.index))
      ensures Frames() == old(Frames()) && Upvalues() == old(Upvalues())
    {
      if top.index > t {
        top := StkId(stack, t);
      }
    }

    /** The registers of the frame of the current function, from the top on. */
    method ClearRegisters(limit: nat)
      requires Valid() && limit <= stackLast.index && top.index <= limit
      requires baseCi[ci.index].top.index == limit
      modifies this`top, stack
      ensures Valid() && top == StkId(stack, limit) && Frames() == old(Frames()) && Upvalues() == old(Upvalues())
      ensures forall i :: 0 <= i < stack.Length ==>
        stack[i] == if old(top.index) <= i < limit then LuaHeap.Nil else old(stack[i])
    {
      SetNil(top.index, limit);
      top := StkId(stack, limit);
    }

    /** The values above the top are nil. */
    static function Cleared(v: View): View {
      v.(values := seq(|v.values|, i requires 0 <= i < |v.values| => if i < v.top then v.values[i] else LuaHeap.Nil))
    }

    /** The end of `traversestack`: the slots above the top are cleared up to the end of the part in use, and the
        stack and the array of frames shrink if they are mostly unused. */
    method ClearAndShrink()
      requires Valid()
      modifies this, baseCi, openupval, stack
      ensures Valid() && Seen() == Cleared(old(Seen()))
      ensures stacksize ==
        if old(sizeCi) <= LUAI_MAXCALLS && TooLarge(old(Limit()), old(stacksize), BASIC_STACK_SIZE + EXTRA_STACK)
        then old(stacksize) / 2 + 1 + EXTRA_STACK else old(stacksize)
    {
      hide Valid, Seen, Limit;
      var lim := FindLimit();
      ClearAbove(lim);
      CheckStackSizes(lim);
    }

    method FindLimit() returns (lim: nat)
      requires Valid()
      ensures lim == Limit()
    {
      lim := top.index;
      var i := 0;
      while i <= ci.index
        invariant i <= ci.index + 1 && lim == LimitUpTo(i)
      {
        if lim < baseCi[i].top.index {
          lim := baseCi[i].top.index;
        }
        i := i + 1;
      }
    }

    method ClearAbove(lim: nat)
      requires Valid() && lim == Limit()
      modifies stack
      ensures Valid() && Seen() == Cleared(old(Seen()))
    {
      hide Valid;
      ghost var v := Seen();
      SeenIs();
      LimitIsInside();
      SetNil(top.index, lim + 1);
      SeenIs();
      assert |Cleared(v).values| == lim;
      assert Seen().values == Cleared(v).values;
    }

    /** A block of which less than a quarter is in use, and that is more than twice as large as a new one. */
    static predicate TooLarge(used: nat, size: nat, first: nat) { 4 * used < size && 2 * first < size }

    /** `checkstacksizes`: a block that is too large is halved, which leaves room for what is in use. */
    method CheckStackSizes(max: nat)
      requires Valid() && max == Limit()
      modifies this, baseCi, openupval
      ensures Valid() && Seen() == old(Seen())
      ensures sizeCi == if old(sizeCi) <= LUAI_MAXCALLS && TooLarge(old(ci.index), old(sizeCi), BASIC_CI_SIZE)
        then old(sizeCi) / 2 else old(sizeCi)
      ensures stacksize ==
        if old(sizeCi) <= LUAI_MAXCALLS && TooLarge(max, old(stacksize), BASIC_STACK_SIZE + EXTRA_STACK)
        then old(stacksize) / 2 + 1 + EXTRA_STACK else old(stacksize)
    {
      hide Valid;
      if sizeCi > LUAI_MAXCALLS {
        return;
      }
      ghost var v := Seen();
      SeenIs();
      if 4 * ci.index < sizeCi && 2 * BASIC_CI_SIZE < sizeCi {
        ReallocCI(sizeCi / 2);
      }
      if 4 * max < stacksize && 2 * (BASIC_STACK_SIZE + EXTRA_STACK) < stacksize {
        ReallocStack(stacksize / 2);
      }
    }

    /** Reading through an open upvalue. */
    function Reading(u: nat): TValue
      requires Valid() && u < |openupval|
      reads this, baseCi, openupval, stack
    {
      assert Inside(openupval[u].v);
      openupval[u].v.block[openupval[u].v.index]
    }

    /** What an open upvalue reads is in the view: when the view stays the same, so does the value. */
    lemma ReadingIsSeen(u: nat)
      requires Valid() && u < |openupval|
      ensures Seen().upvalues[u].1 < |Seen().values| && Reading(u) == Seen().values[Seen().upvalues[u].1]
    {
      SeenIs();
      assert InFrame(openupval[u].v.index);
    }
  }
}
