/** Patterns (lstrlib.c): what matching means, without the state that the matcher changes. */
module LuaPatterns {
  import opened LuaResults

  type Byte = b: int | 0 <= b < 256 witness 0

  const MAXCAPTURES: nat := 32
  const CAP_UNFINISHED: int := -1
  const CAP_POSITION: int := -2

  const ESC: Byte := '%' as int

  /** A capture: where it starts, and how long it is, or one of the two marks above. */
  datatype Cap = Cap(init: nat, len: int)

  /** A C string: the byte at its end is zero. */
  function At(s: seq<Byte>, i: nat): (b: Byte)
    requires i <= |s|
    ensures b != 0 ==> i < |s|
  {
    if i < |s| then s[i] else 0
  }

  // ---- characters, in the C locale

  predicate IsUpper(c: Byte) { 'A' as int <= c <= 'Z' as int }
  predicate IsLower(c: Byte) { 'a' as int <= c <= 'z' as int }
  predicate IsAlpha(c: Byte) { IsUpper(c) || IsLower(c) }
  predicate IsDigit(c: Byte) { '0' as int <= c <= '9' as int }
  predicate IsAlnum(c: Byte) { IsAlpha(c) || IsDigit(c) }
  predicate IsCntrl(c: Byte) { c < 32 || c == 127 }
  predicate IsSpace(c: Byte) { c == 32 || 9 <= c <= 13 }
  predicate IsPunct(c: Byte) { 33 <= c <= 126 && !IsAlnum(c) }
  predicate IsXDigit(c: Byte) { IsDigit(c) || 'a' as int <= c <= 'f' as int || 'A' as int <= c <= 'F' as int }
  function ToLower(c: Byte): Byte { if IsUpper(c) then c + 32 else c }

  /** `match_class`. */
  predicate MatchClass(c: Byte, cl: Byte) {
    var l := ToLower(cl);
    if l == 'a' as int then IsLower(cl) == IsAlpha(c)
    else if l == 'c' as int then IsLower(cl) == IsCntrl(c)
    else if l == 'd' as int then IsLower(cl) == IsDigit(c)
    else if l == 'l' as int then IsLower(cl) == IsLower(c)
    else if l == 'p' as int then IsLower(cl) == IsPunct(c)
    else if l == 's' as int then IsLower(cl) == IsSpace(c)
    else if l == 'u' as int then IsLower(cl) == IsUpper(c)
    else if l == 'w' as int then IsLower(cl) == IsAlnum(c)
    else if l == 'x' as int then IsLower(cl) == IsXDigit(c)
    else if l == 'z' as int then IsLower(cl) == (c == 0)
    else cl == c
  }

  // ---- single characters and sets

  /** Where the set that starts before `p` ends: the position of its closing bracket, if it has one.
      The character at `p` belongs to the set whatever it is. */
  function SetEnd(pat: seq<Byte>, p: nat): (r: Option<nat>)
    requires p <= |pat|
    ensures r.Some? ==> p < r.value < |pat| && pat[r.value] == ']' as int
    decreases |pat| - p
  {
    if At(pat, p) == 0 then None
    else
      var q := if At(pat, p) == ESC && At(pat, p + 1) != 0 then p + 2 else p + 1;
      if At(pat, q) == ']' as int then Some(q) else SetEnd(pat, q)
  }

  /** `classend`: the position after the single character or set at `p`. */
  function ClassEnd(pat: seq<Byte>, p: nat): (r: Result<nat>)
    requires p < |pat|
    ensures r.Success? ==> p < r.value <= |pat|
    ensures r.Success? && pat[p] == '[' as int ==> r.value >= p + 3 && pat[r.value - 1] == ']' as int
    ensures r.Success? && pat[p] == ESC ==> r.value == p + 2
  {
    if pat[p] == ESC then
      if At(pat, p + 1) == 0 then Failure("malformed pattern (ends with '%')") else Success(p + 2)
    else if pat[p] == '[' as int then
      match SetEnd(pat, if At(pat, p + 1) == '^' as int then p + 2 else p + 1)
      case None => Failure("malformed pattern (missing ']')")
      case Some(q) => Success(q + 1)
    else Success(p + 1)
  }

  /** Whether `c` is in the part from `p` to `ec` of a set. */
  predicate InSet(pat: seq<Byte>, c: Byte, p: nat, ec: nat)
    requires ec < |pat|
    decreases ec - p
  {
    if p >= ec then false
    else if pat[p] == ESC then MatchClass(c, pat[p + 1]) || InSet(pat, c, p + 2, ec)
    else if pat[p + 1] == '-' as int && p + 2 < ec then (pat[p] <= c <= pat[p + 2]) || InSet(pat, c, p + 3, ec)
    else pat[p] == c || InSet(pat, c, p + 1, ec)
  }

  /** `matchbracketclass`: the set opens at `p` and closes at `ec`. */
  predicate InBracket(pat: seq<Byte>, c: Byte, p: nat, ec: nat)
    requires p < ec < |pat|
  {
    if pat[p + 1] == '^' as int then !InSet(pat, c, p + 2, ec) else InSet(pat, c, p + 1, ec)
  }

  /** `singlematch`, for the single character or set at `p` that ends before `ep`. */
  predicate SingleMatch(pat: seq<Byte>, c: Byte, p: nat, ep: nat)
    requires p < |pat| && ClassEnd(pat, p) == Success(ep)
  {
    if pat[p] == '.' as int then true
    else if pat[p] == ESC then MatchClass(c, pat[p + 1])
    else if pat[p] == '[' as int then InBracket(pat, c, p, ep - 1)
    else pat[p] == c
  }

  /** How many characters from `s` on match the item. */
  function RunLength(src: seq<Byte>, pat: seq<Byte>, s: nat, p: nat, ep: nat): (n: nat)
    requires s <= |src| && p < |pat| && ClassEnd(pat, p) == Success(ep)
    ensures s + n <= |src|
    decreases |src| - s
  {
    if s < |src| && SingleMatch(pat, src[s], p, ep) then 1 + RunLength(src, pat, s + 1, p, ep) else 0
  }

  /** It is the greatest number of characters such that all of them match. */
  lemma {:induction false} RunLengthIs(src: seq<Byte>, pat: seq<Byte>, s: nat, p: nat, ep: nat, n: nat)
    requires s <= |src| && p < |pat| && ClassEnd(pat, p) == Success(ep)
    ensures n <= RunLength(src, pat, s, p, ep) <==> s + n <= |src| && forall i :: s <= i < s + n ==>
      SingleMatch(pat, src[i], p, ep)
    decreases n
  {
    if n > 0 && s < |src| && SingleMatch(pat, src[s], p, ep) {
      RunLengthIs(src, pat, s + 1, p, ep, n - 1);
    }
  }

  // ---- balanced strings

  /** Openings minus closings in the part of the subject from `s` to `t`; a character that is both closes. */
  function Depth(src: seq<Byte>, b: Byte, e: Byte, s: nat, t: nat): int
    requires s <= t <= |src|
    decreases t
  {
    if s == t then 0 else Depth(src, b, e, s, t - 1) + (if src[t - 1] == e then -1 else if src[t - 1] == b then 1
      else 0)
  }

  /** Something opened at `s` or later is still open at `t`. */
  predicate StillOpen(src: seq<Byte>, b: Byte, e: Byte, s: nat, t: nat)
    requires s < t <= |src|
  {
    1 + Depth(src, b, e, s + 1, t) > 0
  }

  /** `%b`: after the opening at `s`, the first position where as much has been closed as opened. */
  ghost predicate Balanced(src: seq<Byte>, b: Byte, e: Byte, s: nat, t: nat) {
    && s + 1 < t <= |src| && src[s] == b && 1 + Depth(src, b, e, s + 1, t) == 0
    && forall i :: s < i < t ==> StillOpen(src, b, e, s, i)
  }

  function BalanceFrom(src: seq<Byte>, b: Byte, e: Byte, t: nat, cont: nat): (r: Option<nat>)
    requires t <= |src| && cont > 0
    ensures r.Some? ==> t < r.value <= |src|
    decreases |src| - t
  {
    if t == |src| then None
    else if src[t] == e then if cont == 1 then Some(t + 1) else BalanceFrom(src, b, e, t + 1, cont - 1)
    else BalanceFrom(src, b, e, t + 1, if src[t] == b then cont + 1 else cont)
  }

  function Balance(src: seq<Byte>, b: Byte, e: Byte, s: nat): (r: Option<nat>)
    requires s <= |src| && b != 0
    ensures r.Some? ==> s < r.value <= |src|
  {
    if At(src, s) != b then None else BalanceFrom(src, b, e, s + 1, 1)
  }

  lemma {:induction false} BalanceFromIs(src: seq<Byte>, b: Byte, e: Byte, s: nat, t: nat)
    requires s < t <= |src| && src[s] == b && (forall i :: s < i <= t ==> StillOpen(src, b, e, s, i)) &&
      StillOpen(src, b, e, s, t)
    ensures var r := BalanceFrom(src, b, e, t, 1 + Depth(src, b, e, s + 1, t));
      (r.Some? ==> Balanced(src, b, e, s, r.value)) && (r.None? ==> forall x: nat :: !Balanced(src, b, e, s, x))
    decreases |src| - t
  {
    assert StillOpen(src, b, e, s, t);
    if t == |src| {
      forall x: nat ensures !Balanced(src, b, e, s, x) {
        assert s < x <= |src| ==> StillOpen(src, b, e, s, x);
      }
    } else if StillOpen(src, b, e, s, t + 1) {
      BalanceFromIs(src, b, e, s, t + 1);
    } else {
      assert 1 + Depth(src, b, e, s + 1, t + 1) == 0;
    }
  }

  /** The balance found is the only one there is. */
  lemma BalanceIs(src: seq<Byte>, b: Byte, e: Byte, s: nat)
    requires s <= |src| && b != 0
    ensures forall t: nat :: Balance(src, b, e, s) == Some(t) <==> Balanced(src, b, e, s, t)
  {
    if At(src, s) == b {
      assert StillOpen(src, b, e, s, s + 1);
      BalanceFromIs(src, b, e, s, s + 1);
      forall t: nat, u: nat | Balanced(src, b, e, s, t) && Balanced(src, b, e, s, u) ensures t == u {
        OpenBefore(src, b, e, s, t, u);
        OpenBefore(src, b, e, s, u, t);
      }
    }
  }

  lemma OpenBefore(src: seq<Byte>, b: Byte, e: Byte, s: nat, t: nat, u: nat)
    requires Balanced(src, b, e, s, t)
    ensures s < u < t ==> StillOpen(src, b, e, s, u)
  {
  }
}
