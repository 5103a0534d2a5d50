/** `string.find` and `string.match` (lstrlib.c): the leftmost match, and the plain search that stands in
    for the matcher when the pattern has no special characters. */
module LuaFind {
  import opened LuaResults
  import opened LuaPatterns
  import opened LuaPatternSearch
  import opened LuaMatch

  datatype Finding = Found(start: nat, end: nat, caps: seq<Cap>) | Missing | Wrong(error: string)

  /** The pattern from `p` on dies at every position from `from` to before `to`. */
  ghost predicate DiesBefore(t: Texts, p: nat, from: nat, to: nat)
    requires p <= |t.pat| && to <= |t.src| + 1
  {
    forall i: nat :: from <= i < to ==> Search(t, p, i, []) == Dead
  }

  /** `r` is what the matcher gives at the first position from `init` on where it does not die. */
  ghost predicate Leftmost(t: Texts, p: nat, init: nat, r: Finding)
    requires p <= |t.pat| && init <= |t.src|
  {
    match r
    case Found(s, e, caps) => init <= s <= |t.src| && Search(t, p, s, []) == Done(e, caps) && DiesBefore(t, p, init, s)
    case Wrong(error) => exists s: nat :: FailsAt(t, p, init, s, error)
    case Missing => DiesBefore(t, p, init, |t.src| + 1)
  }

  ghost predicate FailsAt(t: Texts, p: nat, init: nat, s: nat, error: string)
    requires p <= |t.pat| && init <= |t.src|
  {
    init <= s <= |t.src| && Search(t, p, s, []) == Bad(error) && DiesBefore(t, p, init, s)
  }

  /** What the matcher gives at `init` alone. */
  ghost predicate Anchored(t: Texts, p: nat, init: nat, r: Finding)
    requires p <= |t.pat| && init <= |t.src|
  {
    match Search(t, p, init, [])
    case Done(e, caps) => r == Found(init, e, caps)
    case Bad(error) => r == Wrong(error)
    case Dead => r == Missing
  }

  /** `lmemfind` finds the first occurrence. */
  ghost predicate FirstOccurrence(src: seq<Byte>, pat: seq<Byte>, init: nat, r: Option<nat>) {
    match r
    case Some(s) => init <= s && OccursAt(src, pat, s) && forall i: nat :: init <= i < s ==> !OccursAt(src, pat, i)
    case None => forall i: nat :: init <= i ==> !OccursAt(src, pat, i)
  }

  predicate OccursAt(src: seq<Byte>, pat: seq<Byte>, s: nat) {
    s + |pat| <= |src| && src[s..s + |pat|] == pat
  }

  /** `memchr`, from `from` to before `to`. */
  method FindByte(src: seq<Byte>, c: Byte, from: nat, to: nat) returns (r: Option<nat>)
    requires from <= to <= |src|
    ensures r.Some? ==> from <= r.value < to && src[r.value] == c && forall i :: from <= i < r.value ==> src[i] != c
    ensures r.None? ==> forall i :: from <= i < to ==> src[i] != c
  {
    var j := from;
    while j < to
      invariant from <= j <= to && forall i :: from <= i < j ==> src[i] != c
    {
      if src[j] == c {
        return Some(j);
      }
      j := j + 1;
    }
    return None;
  }

  lemma OccurrenceStarts(src: seq<Byte>, pat: seq<Byte>, s: nat)
    requires pat != []
    ensures OccursAt(src, pat, s) <==> s + |pat| <= |src| && src[s] == pat[0] && src[s + 1..s + |pat|] == pat[1..]
  {
    if s + |pat| <= |src| {
      assert src[s..s + |pat|] == [src[s]] + src[s + 1..s + |pat|];
      assert pat == [pat[0]] + pat[1..];
      if src[s..s + |pat|] == pat {
        assert src[s + 1..s + |pat|] == src[s..s + |pat|][1..];
      }
    }
  }

  /** `lmemfind`. */
  method MemFind(src: seq<Byte>, init: nat, pat: seq<Byte>) returns (r: Option<nat>)
    requires init <= |src|
    ensures FirstOccurrence(src, pat, init, r)
  {
    if pat == [] {
      return Some(init);
    } else if |pat| > |src| - init {
      return None;
    }
    var end := |src| - (|pat| - 1);
    var s := init;
    while s < end
      invariant init <= s <= end && forall i: nat :: init <= i < s ==> !OccursAt(src, pat, i)
    {
      var at := FindByte(src, pat[0], s, end);
      forall i: nat | s <= i < (if at.Some? then at.value else end) ensures !OccursAt(src, pat, i) {
        OccurrenceStarts(src, pat, i);
      }
      if at.None? {
        return None;
      }
      OccurrenceStarts(src, pat, at.value);
      if src[at.value + 1..at.value + |pat|] == pat[1..] {
        return at;
      }
      s := at.value + 1;
    }
    return None;
  }

  predicate IsSpecial(c: Byte) {
    c == '^' as int || c == '$' as int || c == '*' as int || c == '+' as int || c == '?' as int || c == '.' as int ||
    c == '(' as int || c == '[' as int || c == '%' as int || c == '-' as int
  }

  /** The special characters, as they are listed in the source: ^ $ * + ? . ( [ % - */
  lemma SpecialsAre(c: Byte)
    ensures IsSpecial(c) <==> c in [0x5E, 0x24, 0x2A, 0x2B, 0x3F, 0x2E, 0x28, 0x5B, 0x25, 0x2D]
  {
  }

  /** `strpbrk`: a special character in the C string, which ends at the first zero. */
  predicate HasSpecial(pat: seq<Byte>) {
    exists i :: 0 <= i < |pat| && IsSpecial(pat[i]) && 0 !in pat[..i]
  }

  method FindSpecial(pat: seq<Byte>) returns (r: bool)
    ensures r == HasSpecial(pat)
  {
    var j := 0;
    while At(pat, j) != 0
      invariant j <= |pat| && 0 !in pat[..j] && forall i :: 0 <= i < j ==> !IsSpecial(pat[i])
      decreases |pat| - j
    {
      if IsSpecial(pat[j]) {
        return true;
      }
      j := j + 1;
    }
    forall i | j < i <= |pat| ensures 0 in pat[..i] {
      assert pat[..i][j] == 0;
    }
    return false;
  }

  /** The pattern as text: the matcher and the plain search read it in the same way. */
  predicate IsText(pat: seq<Byte>) {
    !HasSpecial(pat) && 0 !in pat && ')' as int !in pat
  }

  /** The matcher, on a pattern that is text, compares. */
  lemma {:induction false} TextMatches(t: Texts, p: nat, s: nat)
    requires p <= |t.pat| && s <= |t.src| && IsText(t.pat)
    ensures Search(t, p, s, []) == if OccursAt(t.src, t.pat[p..], s) then Done(s + |t.pat| - p, []) else Dead
    decreases |t.pat| - p
  {
    if p < |t.pat| {
      assert !IsSpecial(t.pat[p]) && t.pat[p] != 0 && t.pat[p] != ')' as int;
      assert p + 1 < |t.pat| ==> !IsSpecial(t.pat[p + 1]);
      assert Parse(t.pat, p) == Single(p, p + 1);
      OccurrenceStarts(t.src, t.pat[p..], s);
      assert t.pat[p..][1..] == t.pat[p + 1..];
      if s < |t.src| && t.src[s] == t.pat[p] {
        TextMatches(t, p + 1, s + 1);
      }
    }
  }

  /** The first occurrence, as a finding. */
  function AsFinding(pat: seq<Byte>, r: Option<nat>): Finding {
    match r case Some(s) => Found(s, s + |pat|, []) case None => Missing
  }

  /** For a pattern that is text, the plain search gives what the matcher would give. */
  lemma PlainIsLeftmost(t: Texts, init: nat, r: Option<nat>)
    requires init <= |t.src| && IsText(t.pat) && FirstOccurrence(t.src, t.pat, init, r)
    ensures Leftmost(t, 0, init, AsFinding(t.pat, r))
  {
    assert t.pat[0..] == t.pat;
    forall i: nat | i <= |t.src|
      ensures Search(t, 0, i, []) == if OccursAt(t.src, t.pat, i) then Done(i + |t.pat|, []) else Dead
    {
      TextMatches(t, 0, i);
    }
  }

  /** The plain search agrees with the matcher on every subject. */
  ghost predicate PlainAgrees(pat: seq<Byte>) {
    forall src, init: nat, r :: init <= |src| && FirstOccurrence(src, pat, init, r) ==>
      Leftmost(Texts(src, pat), 0, init, AsFinding(pat, r))
  }

  /** `string.find(")", ")", 1, true)` finds the parenthesis, and so does `string.find(")", ")")`, which takes
      the plain search; but the matcher, to which `string.match(")", ")")` goes, rejects the pattern. */
  lemma PlainFindsWhatMatcherRejects()
    ensures var pat := [')' as int];
      && !HasSpecial(pat)
      && FirstOccurrence(pat, pat, 0, Some(0))
      && Leftmost(Texts(pat, pat), 0, 0, Wrong("invalid pattern capture"))
      && !PlainAgrees(pat)
  {
    var pat := [')' as int];
    OddMatches(pat, 0, 0);
    assert OccursAt(pat, pat, 0);
    assert FailsAt(Texts(pat, pat), 0, 0, 0, "invalid pattern capture");
    PlainAgreesOnText(pat);
  }

  /** For the pattern `a\0b` and the subject `a`, the matcher stops at the zero and finds the `a`, and the plain
      search finds nothing. */
  lemma ZeroEndsPattern()
    ensures var src, pat := ['a' as int], ['a' as int, 0, 'b' as int];
      && !HasSpecial(pat)
      && FirstOccurrence(src, pat, 0, None)
      && Leftmost(Texts(src, pat), 0, 0, Found(0, 1, []))
  {
    var t := Texts(['a' as int], ['a' as int, 0, 'b' as int]);
    assert Parse(t.pat, 0) == Single(0, 1);
    assert Search(t, 1, 1, []) == Done(1, []);
    assert Search(t, 0, 0, []) == Done(1, []);
  }

  /** A pattern without special characters is read as text by the matcher only if it has no zero and no
      closing parenthesis. With them, the plain search finds what the matcher does not. */
  lemma PlainAgreesOnText(pat: seq<Byte>)
    requires !HasSpecial(pat)
    ensures PlainAgrees(pat) <==> 0 !in pat && ')' as int !in pat
  {
    if IsText(pat) {
      forall src, init: nat, r | init <= |src| && FirstOccurrence(src, pat, init, r)
        ensures Leftmost(Texts(src, pat), 0, init, AsFinding(pat, r))
      {
        PlainIsLeftmost(Texts(src, pat), init, r);
      }
    } else {
      var k := FirstOdd(pat);
      OddMatches(pat, k, 0);
      assert OccursAt(pat, pat, 0);
      assert FirstOccurrence(pat, pat, 0, Some(0));
      assert !Leftmost(Texts(pat, pat), 0, 0, AsFinding(pat, Some(0)));
    }
  }

  /** The first character that the matcher does not read as text. */
  lemma FirstOdd(pat: seq<Byte>) returns (k: nat)
    requires 0 in pat || ')' as int in pat
    ensures k < |pat| && (pat[k] == 0 || pat[k] == ')' as int)
    ensures forall i :: 0 <= i < k ==> pat[i] != 0 && pat[i] != ')' as int
  {
    k := 0;
    while pat[k] != 0 && pat[k] != ')' as int
      invariant k < |pat| && (0 in pat[k..] || ')' as int in pat[k..])
      invariant forall i :: 0 <= i < k ==> pat[i] != 0 && pat[i] != ')' as int
      decreases |pat| - k
    {
      k := k + 1;
    }
  }

  /** Against itself, such a pattern ends early or fails. */
  lemma {:induction false} OddMatches(pat: seq<Byte>, k: nat, p: nat)
    requires !HasSpecial(pat) && p <= k < |pat| && (pat[k] == 0 || pat[k] == ')' as int)
    requires forall i :: 0 <= i < k ==> pat[i] != 0 && pat[i] != ')' as int
    ensures Search(Texts(pat, pat), p, p, []) == if pat[k] == 0 then Done(k, []) else Bad("invalid pattern capture")
    decreases k - p
  {
    assert 0 !in pat[..p];
    if p < k {
      assert 0 !in pat[..p + 1];
      assert !IsSpecial(pat[p]) && !IsSpecial(pat[p + 1]);
      assert Parse(pat, p) == Single(p, p + 1);
      OddMatches(pat, k, p + 1);
    }
  }

  /** The loop of `str_find_aux`. */
  method FindPattern(t: Texts, p: nat, anchor: bool, init: nat) returns (r: Finding)
    requires p <= |t.pat| && init <= |t.src|
    ensures if anchor then Anchored(t, p, init, r) else Leftmost(t, p, init, r)
  {
    var ms := new MatchState(t);
    var s := init;
    while true
      invariant fresh(ms) && fresh(ms.capture) && ms.Valid() && ms.t == t && init <= s <= |t.src|
      invariant DiesBefore(t, p, init, s) && (anchor ==> s == init)
      decreases |t.src| - s
    {
      ms.level := 0;
      assert ms.Caps() == [];
      var res := ms.Match(s, p);
      if res.Failure? {
        assert FailsAt(t, p, init, s, res.error);
        return Wrong(res.error);
      } else if res.value.Some? {
        return Found(s, res.value.value, ms.capture[..ms.level]);
      }
      if s == |t.src| || anchor {
        return Missing;
      }
      s := s + 1;
    }
  }

  /** `posrelat`, and the limits that `str_find_aux` puts on it. */
  function StartAt(pos: int, len: nat): (init: nat)
    ensures init <= len
    ensures 1 <= pos <= len + 1 ==> init == pos - 1
    ensures -(len as int) <= pos < 0 ==> init as int == len as int + pos
    ensures pos == 0 || pos < -(len as int) ==> init == 0
    ensures pos > len + 1 ==> init == len
  {
    var p := (if pos >= 0 then pos else if pos + len + 1 >= 0 then pos + len + 1 else 0) - 1;
    if p < 0 then 0 else if p > len then len else p
  }

  /** `string.find`: the plain search when it is asked for or when it cannot make a difference. */
  method StrFind(src: seq<Byte>, pat: seq<Byte>, pos: int, plain: bool) returns (r: Finding)
    ensures plain || !HasSpecial(pat) ==>
      exists o :: FirstOccurrence(src, pat, StartAt(pos, |src|), o) && r == AsFinding(pat, o)
    ensures !plain && At(pat, 0) == '^' as int ==> Anchored(Texts(src, pat), 1, StartAt(pos, |src|), r)
    ensures !plain && At(pat, 0) != '^' as int && (HasSpecial(pat) || IsText(pat)) ==>
      Leftmost(Texts(src, pat), 0, StartAt(pos, |src|), r)
  {
    var init := StartAt(pos, |src|);
    var special := FindSpecial(pat);
    if plain || !special {
      var o := MemFind(src, init, pat);
      r := AsFinding(pat, o);
      if !special && IsText(pat) {
        PlainIsLeftmost(Texts(src, pat), init, o);
      }
    } else if At(pat, 0) == '^' as int {
      r := FindPattern(Texts(src, pat), 1, true, init);
    } else {
      r := FindPattern(Texts(src, pat), 0, false, init);
    }
  }
}
