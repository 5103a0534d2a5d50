/** Concatenation (lvm.c, `luaV_concat`): strings that stand together are joined in one go. */
module LuaConcat {
  import opened LuaResults
  import opened LuaValues

  predicate AllTexts(sem: Semantics, vs: seq<Value>) {
    forall i :: 0 <= i < |vs| ==> sem.IsText(vs[i])
  }

  function Joined(sem: Semantics, vs: seq<Value>): string
    requires AllTexts(sem, vs)
  {
    if vs == [] then "" else sem.Text(vs[0]) + Joined(sem, vs[1..])
  }

  /** Joining two or more strings at once is the same as one after the other. */
  lemma {:induction false} TextsAreJoined(sem: Semantics, vs: seq<Value>)
    requires |vs| >= 2 && AllTexts(sem, vs)
    ensures sem.ConcatAll(vs) == Some(Str(Joined(sem, vs)))
  {
    if |vs| == 2 {
      assert vs[1..] == [vs[1]] && vs[1..][1..] == [];
      assert Joined(sem, vs[1..]) == sem.Text(vs[1]) + Joined(sem, []);
      assert sem.Text(vs[1]) + [] == sem.Text(vs[1]);
    } else {
      TextsAreJoined(sem, vs[1..]);
    }
  }

  /** Concatenation of two values, when a string that is made must be shorter than `max`. */
  function LimitedConcat(sem: Semantics, v: Value, w: Value, max: nat): Result<Value> {
    if sem.IsText(v) && sem.IsText(w) && sem.Text(w) != "" && |sem.Text(v)| + |sem.Text(w)| >= max then
      Failure("string length overflow")
    else
      match sem.Concat(v, w)
      case Some(x) => Success(x)
      case None => Failure("attempt to concatenate")
  }

  /** Concatenation from right to left. */
  function LimitedAll(sem: Semantics, vs: seq<Value>, max: nat): Result<Value>
    requires vs != []
  {
    if |vs| == 1 then Success(vs[0])
    else
      var w := LimitedAll(sem, vs[1..], max);
      if w.Failure? then w else LimitedConcat(sem, vs[0], w.value, max)
  }

  ghost predicate TooLong(v: Option<Value>, max: nat) {
    v.Some? && v.value.Str? && |v.value.s| >= max
  }

  /** The limit changes no result; it is passed only if a string that is made on the way is too long. */
  lemma {:induction false} LimitedIs(sem: Semantics, vs: seq<Value>, max: nat)
    requires vs != []
    ensures match LimitedAll(sem, vs, max)
      case Success(v) => sem.ConcatAll(vs) == Some(v)
      case Failure(e) =>
        || (e == "attempt to concatenate" && sem.ConcatAll(vs) == None)
        || (e == "string length overflow" && exists i :: 0 <= i < |vs| - 1 && TooLong(sem.ConcatAll(vs[i..]), max))
  {
    if |vs| > 1 {
      LimitedIs(sem, vs[1..], max);
      var w := LimitedAll(sem, vs[1..], max);
      assert vs[0..] == vs;
      if w.Failure? && w.error == "string length overflow" {
        var i :| 0 <= i < |vs[1..]| - 1 && TooLong(sem.ConcatAll(vs[1..][i..]), max);
        assert vs[1..][i..] == vs[i + 1..];
      } else if w.Success? && LimitedConcat(sem, vs[0], w.value, max) == Failure("string length overflow") {
        assert TooLong(sem.ConcatAll(vs[0..]), max);
      }
    }
  }

  /** The last values may be concatenated first. */
  lemma {:induction false} LastFirst(sem: Semantics, vs: seq<Value>, ws: seq<Value>, max: nat)
    requires ws != []
    ensures LimitedAll(sem, vs + ws, max) ==
      var w := LimitedAll(sem, ws, max); if w.Failure? then w else LimitedAll(sem, vs + [w.value], max)
    decreases |vs|
  {
    var w := LimitedAll(sem, ws, max);
    if vs == [] {
      assert [] + ws == ws;
      assert w.Success? ==> [] + [w.value] == [w.value];
    } else {
      LastFirst(sem, vs[1..], ws, max);
      assert (vs + ws)[1..] == vs[1..] + ws;
      assert w.Success? ==> (vs + [w.value])[1..] == vs[1..] + [w.value];
    }
  }

  lemma {:induction false} JoinedOneMore(sem: Semantics, vs: seq<Value>, v: Value)
    requires AllTexts(sem, vs) && sem.IsText(v)
    ensures Joined(sem, vs + [v]) == Joined(sem, vs) + sem.Text(v)
  {
    if vs == [] {
      assert [] + [v] == [v];
    } else {
      assert (vs + [v])[1..] == vs[1..] + [v];
      JoinedOneMore(sem, vs[1..], v);
    }
  }

  /** The values from `from` on are the texts of those of `vs`. */
  ghost predicate Converted(sem: Semantics, vs: seq<Value>, ws: seq<Value>, from: nat) {
    && |ws| == |vs| && (forall i :: 0 <= i < from && i < |vs| ==> ws[i] == vs[i])
    && forall i :: from <= i < |vs| ==> sem.IsText(vs[i]) && ws[i] == Str(sem.Text(vs[i]))
  }

  /** One round of `luaV_concat` does not change what the whole gives. */
  lemma OneRound(sem: Semantics, vs: seq<Value>, n: nat, max: nat)
    requires 1 <= n <= |vs|
    ensures var w := LimitedAll(sem, vs[|vs| - n..], max);
      LimitedAll(sem, vs, max) == if w.Failure? then w else LimitedAll(sem, vs[..|vs| - n] + [w.value], max)
  {
    assert vs == vs[..|vs| - n] + vs[|vs| - n..];
    LastFirst(sem, vs[..|vs| - n], vs[|vs| - n..], max);
  }

  /** `luaV_concat` on the `total` registers that end with `last`: the result, or the error, is that of
      concatenating from right to left, and arrives in the first of them. */
  method VConcat(sem: Semantics, base: array<Value>, total: nat, last: nat, max: nat) returns (r: Result<()>)
    requires 2 <= total <= last + 1 <= base.Length
    modifies base
    ensures match LimitedAll(sem, old(base[last + 1 - total..last + 1]), max)
      case Success(v) => r.Success? && base[last + 1 - total] == v
      case Failure(e) => r == Failure(e)
    ensures base[..last + 1 - total] == old(base[..last + 1 - total]) && base[last + 1..] == old(base[last + 1..])
  {
    hide LimitedAll;
    var count, end := total, last;
    ghost var first := last + 1 - total;
    ghost var whole := LimitedAll(sem, base[first..last + 1], max);
    while count > 1
      invariant 1 <= count && first + count == end + 1 <= last + 1
      invariant LimitedAll(sem, base[first..end + 1], max) == whole
      invariant base[..first] == old(base[..first]) && base[last + 1..] == old(base[last + 1..])
    {
      ghost var vs := base[first..end + 1];
      var n;
      r, n := ConcatLast(sem, base, count, end, vs, max);
      OneRound(sem, vs, n, max);
      if r.Failure? {
        return;
      }
      count, end := count - (n - 1), end - (n - 1);
    }
    OneValue(sem, base[first], max);
    assert base[first..end + 1] == [base[first]];
    return Success(());
  }

  lemma OneValue(sem: Semantics, v: Value, max: nat)
    ensures LimitedAll(sem, [v], max) == Success(v)
  {
  }

  /** One round: the last `n` of the `count` registers that end with `end` are concatenated. */
  method ConcatLast(sem: Semantics, base: array<Value>, count: nat, end: nat, ghost vs: seq<Value>, max: nat)
      returns (r: Result<()>, n: nat)
    requires 2 <= count <= end + 1 <= base.Length && vs == base[end + 1 - count..end + 1]
    modifies base
    ensures 2 <= n <= count
    ensures match LimitedAll(sem, vs[count - n..], max)
      case Success(v) => r.Success? && base[end + 1 - count..end + 2 - n] == vs[..count - n] + [v]
      case Failure(e) => r == Failure(e)
    ensures base[..end + 1 - count] == old(base[..end + 1 - count]) && base[end + 1..] == old(base[end + 1..])
  {
    if !sem.IsText(base[end - 1]) || !sem.IsText(base[end]) {
      r := CallMetamethod(sem, base, count, end, vs, max);
      return r, 2;
    } else {
      r, n := ConcatTexts(sem, base, count, end, vs, max);
    }
  }

  /** `call_binTM`: the metamethod gets the values as they are. */
  method CallMetamethod(sem: Semantics, base: array<Value>, count: nat, end: nat, ghost vs: seq<Value>,
      ghost max: nat) returns (r: Result<()>)
    requires 2 <= count <= end + 1 <= base.Length && vs == base[end + 1 - count..end + 1]
    requires !sem.IsText(base[end - 1]) || !sem.IsText(base[end])
    modifies base
    ensures match LimitedAll(sem, vs[count - 2..], max)
      case Success(v) => r.Success? && base[end + 1 - count..end] == vs[..count - 2] + [v]
      case Failure(e) => r == Failure(e)
    ensures base[..end + 1 - count] == old(base[..end + 1 - count]) && base[end + 1..] == old(base[end + 1..])
  {
    hide LimitedAll;
    LastTwo(sem, vs, base[end - 1], base[end], max);
    var x := sem.concatOther(base[end - 1], base[end]);
    if x.None? {
      return Failure("attempt to concatenate");
    }
    StoreBefore(base, count, end, x.value, vs);
    return Success(());
  }

  /** The last two values are strings or numbers. */
  method ConcatTexts(sem: Semantics, base: array<Value>, count: nat, end: nat, ghost vs: seq<Value>, max: nat)
      returns (r: Result<()>, n: nat)
    requires 2 <= count <= end + 1 <= base.Length && vs == base[end + 1 - count..end + 1]
    requires sem.IsText(base[end - 1]) && sem.IsText(base[end])
    modifies base
    ensures 2 <= n <= count
    ensures match LimitedAll(sem, vs[count - n..], max)
      case Success(v) => r.Success? && base[end + 1 - count..end + 2 - n] == vs[..count - n] + [v]
      case Failure(e) => r == Failure(e)
    ensures base[..end + 1 - count] == old(base[..end + 1 - count]) && base[end + 1..] == old(base[end + 1..])
  {
    hide LimitedAll, Converted;
    var v, w := base[end - 1], base[end];
    base[end] := Str(sem.Text(w));
    assert base[end + 1 - count..end] == vs[..count - 1];
    if sem.Text(w) == "" {
      LastTwo(sem, vs, v, w, max);
      assert sem.Text(v) + "" == sem.Text(v);
      StoreBefore(base, count, end, Str(sem.Text(v)), vs);
      return Success(()), 2;
    }
    LastConverted(sem, vs, base[end + 1 - count..end + 1]);
    r, n := JoinTexts(sem, base, count, end, vs, max);
  }

  lemma LastTwo(sem: Semantics, vs: seq<Value>, v: Value, w: Value, max: nat)
    requires |vs| >= 2 && vs[|vs| - 2] == v && vs[|vs| - 1] == w
    ensures LimitedAll(sem, vs[|vs| - 2..], max) == LimitedConcat(sem, v, w, max)
  {
    assert vs[|vs| - 2..] == [v, w] && [v, w][1..] == [w];
  }

  lemma LastConverted(sem: Semantics, vs: seq<Value>, ws: seq<Value>)
    requires |ws| == |vs| > 0 && ws[..|vs| - 1] == vs[..|vs| - 1]
    requires sem.IsText(vs[|vs| - 1]) && ws[|vs| - 1] == Str(sem.Text(vs[|vs| - 1]))
    ensures Converted(sem, vs, ws, |vs| - 1)
  {
    forall i | 0 <= i < |vs| - 1 ensures ws[i] == vs[i] {
      assert ws[..|vs| - 1][i] == vs[..|vs| - 1][i];
    }
  }

  /** The last but one register gets the value. */
  method StoreBefore(base: array<Value>, count: nat, end: nat, v: Value, ghost vs: seq<Value>)
    requires 2 <= count <= end + 1 <= base.Length && |vs| == count && base[end + 1 - count..end] == vs[..count - 1]
    modifies base
    ensures base[end + 1 - count..end] == vs[..count - 2] + [v]
    ensures base[..end + 1 - count] == old(base[..end + 1 - count]) && base[end + 1..] == old(base[end + 1..])
  {
    ghost var before := base[end + 1 - count..end];
    base[end - 1] := v;
    assert base[end + 1 - count..end] == before[count - 2 := v];
  }

  /** Joins as many strings as there are at the end. */
  method JoinTexts(sem: Semantics, base: array<Value>, count: nat, end: nat, ghost vs: seq<Value>, max: nat)
      returns (r: Result<()>, n: nat)
    requires 2 <= count <= end + 1 <= base.Length && sem.IsText(base[end - 1])
    requires Converted(sem, vs, base[end + 1 - count..end + 1], count - 1) && base[end] != Str("")
    modifies base
    ensures 2 <= n <= count
    ensures match LimitedAll(sem, vs[count - n..], max)
      case Success(v) => r.Success? && base[end + 1 - count..end + 2 - n] == vs[..count - n] + [v]
      case Failure(e) => r == Failure(e)
    ensures base[..end + 1 - count] == old(base[..end + 1 - count]) && base[end + 1..] == old(base[end + 1..])
  {
    hide LimitedAll, Joined;
    var tl;
    r, n, tl := CountTexts(sem, base, count, end, vs, max);
    if r.Success? {
      var buffer := Buffer(sem, base, count, end, n, vs);
      base[end + 1 - n] := Str(buffer);
    }
  }

  /** The values at the end, all strings or numbers, give one string. */
  ghost predicate JoinsTo(sem: Semantics, run: seq<Value>, max: nat, tl: nat)
    requires run != []
  {
    var w := LimitedAll(sem, run, max);
    && AllTexts(sem, run) && |Joined(sem, run)| == tl > 0
    && w.Success? && sem.IsText(w.value) && sem.Text(w.value) == Joined(sem, run)
    && (|run| >= 2 ==> w.value == Str(Joined(sem, run)))
  }

  lemma JoinsOne(sem: Semantics, v: Value, max: nat)
    requires sem.IsText(v) && sem.Text(v) != ""
    ensures JoinsTo(sem, [v], max, |sem.Text(v)|)
  {
    assert Joined(sem, [v][1..]) == "" && sem.Text(v) + "" == sem.Text(v);
  }

  lemma JoinsOneMore(sem: Semantics, v: Value, run: seq<Value>, max: nat, tl: nat)
    requires run != [] && JoinsTo(sem, run, max, tl) && sem.IsText(v)
    ensures |sem.Text(v)| + tl >= max ==> LimitedAll(sem, [v] + run, max) == Failure("string length overflow")
    ensures |sem.Text(v)| + tl < max ==> JoinsTo(sem, [v] + run, max, |sem.Text(v)| + tl)
  {
    assert ([v] + run)[1..] == run;
  }

  lemma LastIsText(sem: Semantics, vs: seq<Value>, ws: seq<Value>)
    requires ws != [] && Converted(sem, vs, ws, |ws| - 1)
    ensures |ws| == |vs| && sem.IsText(vs[|vs| - 1]) && ws[|vs| - 1] == Str(sem.Text(vs[|vs| - 1]))
  {
  }

  /** `tostring` on one more register. */
  method ConvertOne(sem: Semantics, base: array<Value>, count: nat, end: nat, n: nat, ghost vs: seq<Value>)
      returns (text: string)
    requires 1 <= n < count <= end + 1 <= base.Length && sem.IsText(base[end - n])
    requires Converted(sem, vs, base[end + 1 - count..end + 1], count - n)
    modifies base
    ensures |vs| == count && sem.IsText(vs[count - n - 1]) && text == sem.Text(vs[count - n - 1])
    ensures Converted(sem, vs, base[end + 1 - count..end + 1], count - n - 1)
    ensures base[..end + 1 - count] == old(base[..end + 1 - count]) && base[end + 1..] == old(base[end + 1..])
  {
    ghost var before := base[end + 1 - count..end + 1];
    assert before[count - n - 1] == base[end - n];
    text := sem.Text(base[end - n]);
    base[end - n] := Str(text);
    assert base[end + 1 - count..end + 1] == before[count - n - 1 := base[end - n]];
  }

  /** Converts numbers to strings and adds up the lengths, until there is a value that is neither. */
  method CountTexts(sem: Semantics, base: array<Value>, count: nat, end: nat, ghost vs: seq<Value>, max: nat)
      returns (r: Result<()>, n: nat, tl: nat)
    requires 2 <= count <= end + 1 <= base.Length && sem.IsText(base[end - 1])
    requires Converted(sem, vs, base[end + 1 - count..end + 1], count - 1) && base[end] != Str("")
    modifies base
    ensures 2 <= n <= count && Converted(sem, vs, base[end + 1 - count..end + 1], count - n)
    ensures r.Success? ==> JoinsTo(sem, vs[count - n..], max, tl)
    ensures r.Failure? ==> LimitedAll(sem, vs[count - n..], max) == Failure(r.error)
    ensures base[..end + 1 - count] == old(base[..end + 1 - count]) && base[end + 1..] == old(base[end + 1..])
  {
    hide LimitedAll, JoinsTo, Converted;
    ghost var low := end + 1 - count;
    assert base[low..end + 1][count - 1] == base[end];
    LastIsText(sem, vs, base[low..end + 1]);
    n := 1;
    tl := |base[end].s|;
    JoinsOne(sem, vs[count - 1], max);
    assert vs[count - 1..] == [vs[count - 1]];
    while n < count && sem.IsText(base[end - n])
      invariant 1 <= n <= count && |vs| == count && (n == 1 ==> sem.IsText(base[end - 1]))
      invariant Converted(sem, vs, base[low..end + 1], count - n)
      invariant JoinsTo(sem, vs[count - n..], max, tl)
      invariant base[..low] == old(base[..low]) && base[end + 1..] == old(base[end + 1..])
      decreases count - n
    {
      var text := ConvertOne(sem, base, count, end, n, vs);
      JoinsOneMore(sem, vs[count - n - 1], vs[count - n..], max, tl);
      assert vs[count - n - 1..] == [vs[count - n - 1]] + vs[count - n..];
      n := n + 1;
      if |text| + tl >= max {
        return Failure("string length overflow"), n, tl;
      }
      tl := |text| + tl;
    }
    return Success(()), n, tl;
  }

  method Buffer(sem: Semantics, base: array<Value>, count: nat, end: nat, n: nat, ghost vs: seq<Value>)
      returns (buffer: string)
    requires n <= count <= end + 1 <= base.Length
    requires Converted(sem, vs, base[end + 1 - count..end + 1], count - n)
    ensures AllTexts(sem, vs[count - n..]) && buffer == Joined(sem, vs[count - n..])
  {
    ghost var texts := vs[count - n..];
    assert |vs| == count && |texts| == n && AllTexts(sem, texts);
    buffer := "";
    var i := n;
    while i > 0
      invariant 0 <= i <= n && AllTexts(sem, texts) && buffer == Joined(sem, texts[..n - i])
    {
      JoinedOneMore(sem, texts[..n - i], texts[n - i]);
      assert texts[..n - i] + [texts[n - i]] == texts[..n - (i - 1)];
      assert base[end + 1 - count..end + 1][count - i] == base[end + 1 - i];
      buffer := buffer + base[end + 1 - i].s;
      i := i - 1;
    }
    assert texts[..n] == texts;
  }
}
