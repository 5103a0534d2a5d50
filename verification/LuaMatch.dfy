/** The matcher (lstrlib.c): it changes its captures as it goes, and undoes the changes when it backtracks. */
module LuaMatch {
  import opened LuaResults
  import opened LuaPatterns
  import opened LuaPatternSearch

  /** `matchbracketclass`. */
  method MatchBracketClass(pat: seq<Byte>, c: Byte, start: nat, ec: nat) returns (r: bool)
    requires start < ec < |pat|
    ensures r == InBracket(pat, c, start, ec)
  {
    var sig, p := true, start;
    if pat[p + 1] == '^' as int {
      sig := false;
      p := p + 1;
    }
    p := p + 1;
    ghost var first := p;
    while p < ec
      invariant first <= p && InSet(pat, c, first, ec) == InSet(pat, c, p, ec)
      decreases ec - p
    {
      if pat[p] == ESC {
        p := p + 1;
        if MatchClass(c, pat[p]) {
          return sig;
        }
      } else if pat[p + 1] == '-' as int && p + 2 < ec {
        p := p + 2;
        if pat[p - 2] <= c <= pat[p] {
          return sig;
        }
      } else if pat[p] == c {
        return sig;
      }
      p := p + 1;
    }
    return !sig;
  }

  /** `classend`. */
  method FindClassEnd(pat: seq<Byte>, start: nat) returns (r: Result<nat>)
    requires start < |pat|
    ensures r == ClassEnd(pat, start)
  {
    var p := start + 1;
    if pat[start] == ESC {
      if At(pat, p) == 0 {
        return Failure("malformed pattern (ends with '%')");
      }
      return Success(p + 1);
    } else if pat[start] == '[' as int {
      if At(pat, p) == '^' as int {
        p := p + 1;
      }
      ghost var first := p;
      var looking := true;
      while looking
        invariant first <= p <= |pat|
        invariant looking ==> SetEnd(pat, first) == SetEnd(pat, p)
        invariant !looking ==> SetEnd(pat, first) == Some(p) && p < |pat|
        decreases |pat| - p, looking
      {
        if At(pat, p) == 0 {
          return Failure("malformed pattern (missing ']')");
        }
        p := p + 1;
        if pat[p - 1] == ESC && At(pat, p) != 0 {
          p := p + 1;
        }
        looking := At(pat, p) != ']' as int;
      }
      return Success(p + 1);
    } else {
      return Success(p);
    }
  }

  /** `singlematch`. */
  method MatchSingle(pat: seq<Byte>, c: Byte, p: nat, ep: nat) returns (r: bool)
    requires p < |pat| && ClassEnd(pat, p) == Success(ep)
    ensures r == SingleMatch(pat, c, p, ep)
  {
    if pat[p] == '.' as int {
      r := true;
    } else if pat[p] == ESC {
      r := MatchClass(c, pat[p + 1]);
    } else if pat[p] == '[' as int {
      r := MatchBracketClass(pat, c, p, ep - 1);
    } else {
      r := pat[p] == c;
    }
  }

  class MatchState {
    const t: Texts
    var level: nat
    const capture: array<Cap>

    ghost predicate Valid()
      reads this
    {
      capture.Length == MAXCAPTURES && level <= MAXCAPTURES
    }

    ghost function Caps(): seq<Cap>
      requires Valid()
      reads this, capture
    {
      capture[..level]
    }

    constructor (texts: Texts)
      ensures Valid() && t == texts && level == 0 && fresh(capture)
    {
      t, level, capture := texts, 0, new Cap[MAXCAPTURES](_ => Cap(0, 0));
    }

    /** What the matcher does is what backtracking without side effects does; when it fails, the
        captures are what they were. */
    ghost predicate Agrees(r: Result<Option<nat>>, expected: Ending, caps0: seq<Cap>)
      reads this, capture
    {
      && Valid()
      && match expected
         case Dead => r == Success(None) && Caps() == caps0
         case Done(e, caps) => r == Success(Some(e)) && Caps() == caps
         case Bad(error) => r == Failure(error)
    }

    /** `matchbalance`. */
    method MatchBalance(s: nat, p: nat) returns (r: Option<nat>)
      requires s <= |t.src| && p + 1 < |t.pat| && t.pat[p] != 0 && t.pat[p + 1] != 0
      ensures r == Balance(t.src, t.pat[p], t.pat[p + 1], s)
    {
      if At(t.src, s) != t.pat[p] {
        return None;
      }
      var b, e, cont := t.pat[p], t.pat[p + 1], 1;
      var i := s + 1;
      while i < |t.src|
        invariant s < i <= |t.src| && cont > 0 && BalanceFrom(t.src, b, e, s + 1, 1) ==
          BalanceFrom(t.src, b, e, i, cont)
      {
        if t.src[i] == e {
          cont := cont - 1;
          if cont == 0 {
            return Some(i + 1);
          }
        } else if t.src[i] == b {
          cont := cont + 1;
        }
        i := i + 1;
      }
      return None;
    }

    /** `max_expand`. */
    method MaxExpand(s: nat, p: nat, ep: nat) returns (r: Result<Option<nat>>)
      requires Valid() && s <= |t.src| && CapsOk(Caps(), s) && p < ep < |t.pat| && ClassEnd(t.pat, p) == Success(ep)
      modifies this`level, capture
      ensures Agrees(r, Try(t, ep, s, old(Caps()), '*' as int, RunLength(t.src, t.pat, s, p, ep), 0), old(Caps()))
      decreases |t.pat| - ep, 0
    {
      ghost var caps0 := Caps();
      var i := 0;
      while s + i < |t.src|
        invariant s + i <= |t.src| && Valid() && Caps() == caps0
        invariant RunLength(t.src, t.pat, s, p, ep) == i + RunLength(t.src, t.pat, s + i, p, ep)
      {
        var m := MatchSingle(t.pat, t.src[s + i], p, ep);
        if !m {
          break;
        }
        i := i + 1;
      }
      ghost var max := RunLength(t.src, t.pat, s, p, ep);
      assert i == max;
      var more := true;
      while more
        invariant 0 <= i <= max && Valid() && Caps() == caps0
        invariant more ==> Try(t, ep, s, caps0, '*' as int, max, 0) == Try(t, ep, s, caps0, '*' as int, max, max - i)
        invariant !more ==> Try(t, ep, s, caps0, '*' as int, max, 0) == Dead
        decreases i, more
      {
        CapsStayOk(caps0, s, s + i);
        var res := Match(s + i, ep + 1);
        if res.Failure? || res.value.Some? {
          return res;
        }
        if i == 0 {
          more := false;
        } else {
          i := i - 1;
        }
      }
      return Success(None);
    }

    /** `min_expand`. */
    method MinExpand(start: nat, p: nat, ep: nat) returns (r: Result<Option<nat>>)
      requires Valid() && start <= |t.src| && CapsOk(Caps(), start) && p < ep < |t.pat| &&
        ClassEnd(t.pat, p) == Success(ep)
      modifies this`level, capture
      ensures Agrees(r, Try(t, ep, start, old(Caps()), '-' as int, RunLength(t.src, t.pat, start, p, ep), 0),
        old(Caps()))
      decreases |t.pat| - ep, 0
    {
      ghost var caps0, max := Caps(), RunLength(t.src, t.pat, start, p, ep);
      var s := start;
      while true
        invariant start <= s <= start + max && Valid() && Caps() == caps0
        invariant max == s - start + RunLength(t.src, t.pat, s, p, ep)
        invariant Try(t, ep, start, caps0, '-' as int, max, 0) == Try(t, ep, start, caps0, '-' as int, max, s - start)
        decreases |t.src| - s
      {
        CapsStayOk(caps0, start, s);
        var res := Match(s, ep + 1);
        if res.Failure? || res.value.Some? {
          return res;
        }
        var m := false;
        if s < |t.src| {
          m := MatchSingle(t.pat, t.src[s], p, ep);
        }
        if !m {
          return Success(None);
        }
        s := s + 1;
      }
    }

    /** `start_capture`. */
    method StartCapture(s: nat, p: nat, what: int) returns (r: Result<Option<nat>>)
      requires Valid() && s <= |t.src| && p <= |t.pat| && CapsOk(Caps(), s) &&
        (what == CAP_UNFINISHED || what == CAP_POSITION)
      modifies this`level, capture
      ensures Agrees(r, if |old(Caps())| >= MAXCAPTURES then Bad("too many captures")
        else Search(t, p, s, old(Caps()) + [Cap(s, what)]), old(Caps()))
      decreases |t.pat| - p, 3
    {
      if level >= MAXCAPTURES {
        return Failure("too many captures");
      }
      ghost var caps0 := Caps();
      capture[level] := Cap(s, what);
      level := level + 1;
      assert Caps() == caps0 + [Cap(s, what)];
      r := Match(s, p);
      if r == Success(None) {
        assert level == |Caps()|;
        level := level - 1;
        assert Caps() == (caps0 + [Cap(s, what)])[..|caps0|];
      }
    }

    /** `capture_to_close`. */
    method FindCaptureToClose() returns (l: Option<nat>)
      requires Valid()
      ensures l == CaptureToClose(Caps())
    {
      var i := level;
      while i > 0
        invariant 0 <= i <= level && CaptureToClose(Caps()) == CaptureToClose(Caps()[..i])
      {
        i := i - 1;
        assert Caps()[..i + 1][..i] == Caps()[..i];
        if capture[i].len == CAP_UNFINISHED {
          return Some(i);
        }
      }
      return None;
    }

    /** `end_capture`. */
    method EndCapture(s: nat, p: nat) returns (r: Result<Option<nat>>)
      requires Valid() && s <= |t.src| && p <= |t.pat| && CapsOk(Caps(), s)
      modifies this`level, capture
      ensures Agrees(r, match CaptureToClose(old(Caps())) case None => Bad("invalid pattern capture") case Some(l) =>
        Search(t, p, s, Closed(old(Caps()), l, s)),
                     old(Caps()))
      decreases |t.pat| - p, 3
    {
      var found := FindCaptureToClose();
      if found.None? {
        return Failure("invalid pattern capture");
      }
      var l := found.value;
      ghost var caps0 := Caps();
      capture[l] := Cap(capture[l].init, s - capture[l].init);
      assert Caps() == Closed(caps0, l, s);
      r := Match(s, p);
      if r == Success(None) {
        assert Caps()[l] == Closed(caps0, l, s)[l] == capture[l];
        capture[l] := Cap(capture[l].init, CAP_UNFINISHED);
        assert Caps() == caps0;
      }
    }

    /** `match_capture`, after `check_capture`. */
    method MatchCapture(s: nat, l: Byte) returns (r: Result<Option<nat>>)
      requires Valid() && s <= |t.src| && CapsOk(Caps(), s)
      ensures r == if GoodIndex(Caps(), l) then Success(AfterCapture(t.src, Caps()[l - '1' as int], s))
        else Failure("invalid capture index")
    {
      var i := l - '1' as int;
      if i < 0 || i >= level || capture[i].len == CAP_UNFINISHED {
        return Failure("invalid capture index");
      }
      var c := capture[i];
      assert c == Caps()[i];
      if c.len >= 0 && |t.src| - s >= c.len && t.src[c.init..c.init + c.len] == t.src[s..s + c.len] {
        return Success(Some(s + c.len));
      }
      return Success(None);
    }

    /** The outcome of one item: the result of the match, or where to go on. */
    ghost predicate StepAgrees(r: Option<Result<Option<nat>>>, s: nat, p: nat, s': nat, p': nat, caps0: seq<Cap>)
      requires p <= |t.pat| && s <= |t.src| && CapsOk(caps0, s)
      reads this, capture
    {
      match r
      case Some(r) => Agrees(r, Search(t, p, s, caps0), caps0)
      case None =>
        && Valid() && Caps() == caps0 && p < p' <= |t.pat| && s <= s' <= |t.src| && CapsOk(caps0, s')
        && Search(t, p, s, caps0) == Search(t, p', s', caps0)
    }

    /** `%b`. */
    method MatchBalanced(s: nat, p: nat) returns (r: Option<Result<Option<nat>>>, s': nat, p': nat)
      requires Valid() && s <= |t.src| && p < |t.pat| && CapsOk(Caps(), s) && t.pat[p] == ESC &&
        At(t.pat, p + 1) == 'b' as int
      ensures StepAgrees(r, s, p, s', p', Caps())
    {
      hide Balance, RunLength, GoodIndex, SingleMatch, ClassEnd, IsDigit;
      s', p' := s, p;
      if At(t.pat, p + 2) == 0 || At(t.pat, p + 3) == 0 {
        return Some(Failure("unbalanced pattern")), s, p;
      }
      assert Parse(t.pat, p) == BalancedItem(t.pat[p + 2], t.pat[p + 3], p + 4);
      var res := MatchBalance(s, p + 2);
      if res.None? {
        return Some(Success(None)), s, p;
      }
      CapsStayOk(Caps(), s, res.value);
      return None, res.value, p + 4;
    }

    /** `%f`. */
    method MatchFrontier(s: nat, p: nat) returns (r: Option<Result<Option<nat>>>, s': nat, p': nat)
      requires Valid() && s <= |t.src| && p < |t.pat| && CapsOk(Caps(), s) && t.pat[p] == ESC &&
        At(t.pat, p + 1) == 'f' as int
      ensures StepAgrees(r, s, p, s', p', Caps())
    {
      hide Balance, RunLength, GoodIndex, SingleMatch, InBracket, IsDigit;
      s', p' := s, p;
      if At(t.pat, p + 2) != '[' as int {
        return Some(Failure("missing '[' after '%f' in pattern")), s, p;
      }
      var ep := FindClassEnd(t.pat, p + 2);
      if ep.Failure? {
        return Some(Failure(ep.error)), s, p;
      }
      assert Parse(t.pat, p) == Frontier(p + 2, ep.value);
      var previous: Byte := if s == 0 then 0 else t.src[s - 1];
      var before := MatchBracketClass(t.pat, previous, p + 2, ep.value - 1);
      var after := MatchBracketClass(t.pat, At(t.src, s), p + 2, ep.value - 1);
      if before || !after {
        return Some(Success(None)), s, p;
      }
      return None, s, ep.value;
    }

    /** `%1` to `%9`. */
    method MatchBack(s: nat, p: nat) returns (r: Option<Result<Option<nat>>>, s': nat, p': nat)
      requires Valid() && s <= |t.src| && p < |t.pat| && CapsOk(Caps(), s) && t.pat[p] == ESC &&
        IsDigit(At(t.pat, p + 1))
      ensures StepAgrees(r, s, p, s', p', Caps())
    {
      hide Balance, RunLength, GoodIndex, SingleMatch, ClassEnd, AfterCapture;
      s', p' := s, p;
      assert Parse(t.pat, p) == BackReference(t.pat[p + 1], p + 2);
      var res := MatchCapture(s, t.pat[p + 1]);
      if res.Failure? {
        return Some(Failure(res.error)), s, p;
      } else if res.value.None? {
        return Some(Success(None)), s, p;
      }
      CapsStayOk(Caps(), s, res.value.value);
      return None, res.value.value, p + 2;
    }

    /** A pattern item: a single character or a set, perhaps repeated. */
    method MatchItem(s: nat, p: nat) returns (r: Option<Result<Option<nat>>>, s': nat, p': nat)
      requires Valid() && s <= |t.src| && p < |t.pat| && CapsOk(Caps(), s) && IsItem(t.pat, p)
      modifies this`level, capture
      ensures StepAgrees(r, s, p, s', p', old(Caps()))
      decreases |t.pat| - p, 1
    {
      hide SingleMatch, ClassEnd, Parse, Search, IsItem, Try;
      ghost var caps0 := Caps();
      ItemIs(t, p, s, caps0);
      s', p' := s, p;
      var end := FindClassEnd(t.pat, p);
      if end.Failure? {
        return Some(Failure(end.error)), s, p;
      }
      var ep, m := end.value, false;
      if s < |t.src| {
        m := MatchSingle(t.pat, t.src[s], p, ep);
        CapsStayOk(caps0, s, s + 1);
      }
      ghost var max := RunLength(t.src, t.pat, s, p, ep);
      if At(t.pat, ep) == '?' as int {
        OptionalTries(t, ep, s, caps0, max);
        if m {
          var res := Match(s + 1, ep + 1);
          if res.Failure? || res.value.Some? {
            return Some(res), s, p;
          }
        }
        return None, s, ep + 1;
      } else if At(t.pat, ep) == '*' as int {
        var res := MaxExpand(s, p, ep);
        r := Some(res);
      } else if At(t.pat, ep) == '+' as int {
        if m {
          PlusTries(t, ep, s, caps0, max, 0);
          var res := MaxExpand(s + 1, p, ep);
          r := Some(res);
        } else {
          NoPlus(t, ep, s, caps0);
          r := Some(Success(None));
        }
      } else if At(t.pat, ep) == '-' as int {
        var res := MinExpand(s, p, ep);
        r := Some(res);
      } else if !m {
        r := Some(Success(None));
      } else {
        return None, s + 1, ep;
      }
    }

    /** `match`: the jumps to its beginning are the loop. */
    method Match(start: nat, pattern: nat) returns (r: Result<Option<nat>>)
      requires Valid() && start <= |t.src| && pattern <= |t.pat| && CapsOk(Caps(), start)
      modifies this`level, capture
      ensures Agrees(r, Search(t, pattern, start, old(Caps())), old(Caps()))
      decreases |t.pat| - pattern, 2
    {
      ghost var caps0 := Caps();
      var s, p := start, pattern;
      while true
        invariant pattern <= p <= |t.pat| && start <= s <= |t.src| && Valid() && Caps() == caps0 && CapsOk(caps0, s)
        invariant Search(t, pattern, start, caps0) == Search(t, p, s, caps0)
        decreases |t.pat| - p
      {
        ParseGoesOn(t.pat, p);
        var c := At(t.pat, p);
        if c == '(' as int {
          if At(t.pat, p + 1) == ')' as int {
            r := StartCapture(s, p + 2, CAP_POSITION);
          } else {
            r := StartCapture(s, p + 1, CAP_UNFINISHED);
          }
          return;
        } else if c == ')' as int {
          r := EndCapture(s, p + 1);
          return;
        } else if c == 0 {
          return Success(Some(s));
        } else if c == '$' as int && At(t.pat, p + 1) == 0 {
          return Success(if s == |t.src| then Some(s) else None);
        }
        var res;
        if c == ESC && At(t.pat, p + 1) == 'b' as int {
          res, s, p := MatchBalanced(s, p);
        } else if c == ESC && At(t.pat, p + 1) == 'f' as int {
          res, s, p := MatchFrontier(s, p);
        } else if c == ESC && IsDigit(At(t.pat, p + 1)) {
          res, s, p := MatchBack(s, p);
        } else {
          res, s, p := MatchItem(s, p);
        }
        if res.Some? {
          return res.value;
        }
      }
    }
  }

  /** What the default case of the matcher sees: a single character or a set. */
  predicate IsItem(pat: seq<Byte>, p: nat)
    requires p < |pat|
  {
    && pat[p] != 0 && pat[p] != '(' as int && pat[p] != ')' as int && !(pat[p] == '$' as int && At(pat, p + 1) == 0)
    && !(pat[p] == ESC && (At(pat, p + 1) == 'b' as int || At(pat, p + 1) == 'f' as int || IsDigit(At(pat, p + 1))))
  }

  lemma ItemIs(t: Texts, p: nat, s: nat, caps: seq<Cap>)
    requires p < |t.pat| && s <= |t.src| && CapsOk(caps, s) && IsItem(t.pat, p)
    ensures match ClassEnd(t.pat, p)
      case Failure(error) => Search(t, p, s, caps) == Bad(error)
      case Success(ep) =>
        var c, max := At(t.pat, ep), RunLength(t.src, t.pat, s, p, ep);
        && (IsRepetition(c) ==> ep < |t.pat| && Search(t, p, s, caps) == Try(t, ep, s, caps, c, max, 0))
        && (!IsRepetition(c) && max == 0 ==> Search(t, p, s, caps) == Dead)
        && (!IsRepetition(c) && max > 0 ==> CapsOk(caps, s + 1) && Search(t, p, s, caps) == Search(t, ep, s + 1, caps))
  {
    hide SingleMatch, ClassEnd, Try;
    CapsStayOk(caps, s, s + 1);
    assert match ClassEnd(t.pat, p)
      case Failure(error) => Parse(t.pat, p) == Malformed(error)
      case Success(ep) => Parse(t.pat, p) == if IsRepetition(At(t.pat, ep)) then Repeated(p, ep, t.pat[ep])
        else Single(p, ep);
  }

  lemma NoPlus(t: Texts, ep: nat, s: nat, caps: seq<Cap>)
    requires ep < |t.pat| && s <= |t.src| && CapsOk(caps, s)
    ensures Try(t, ep, s, caps, '+' as int, 0, 0) == Dead
  {
  }

  /** An optional item is tried once, and then not at all. */
  lemma OptionalTries(t: Texts, ep: nat, s: nat, caps: seq<Cap>, max: nat)
    requires ep < |t.pat| && s + max <= |t.src| && CapsOk(caps, s) && CapsOk(caps, s + Most('?' as int, max))
    ensures Try(t, ep, s, caps, '?' as int, max, 0) ==
      (if max == 0 then Search(t, ep + 1, s, caps)
       else var r := Search(t, ep + 1, s + 1, caps); if r != Dead then r else Search(t, ep + 1, s, caps))
  {
    if max > 0 {
      assert Try(t, ep, s, caps, '?' as int, max, 2) == Dead;
      assert Try(t, ep, s, caps, '?' as int, max, 1) == Search(t, ep + 1, s, caps);
    } else {
      assert Try(t, ep, s, caps, '?' as int, max, 1) == Dead;
    }
  }

  /** One or more repetitions are one, and then none or more. */
  lemma {:induction false} PlusTries(t: Texts, ep: nat, s: nat, caps: seq<Cap>, max: nat, k: nat)
    requires ep < |t.pat| && s + max <= |t.src| && max > 0 && CapsOk(caps, s) && CapsOk(caps, s + 1)
    ensures Try(t, ep, s, caps, '+' as int, max, k) == Try(t, ep, s + 1, caps, '*' as int, max - 1, k)
    decreases max + 1 - k
  {
    if k < max {
      PlusTries(t, ep, s, caps, max, k + 1);
    }
  }
}
