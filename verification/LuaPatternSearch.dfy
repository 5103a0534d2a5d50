/** Backtracking (lstrlib.c, `match`): a match is a way through the pattern that does not die, and the
    matcher finds the first one in the order of preference. */
module LuaPatternSearch {
  import opened LuaResults
  import opened LuaPatterns

  /** The subject and the pattern. */
  datatype Texts = Texts(src: seq<Byte>, pat: seq<Byte>)

  datatype Item =
    | Malformed(error: string)
    | End
    | EndAnchor
    | OpenCapture(what: int, next: nat)
    | CloseCapture(next: nat)
    | BackReference(l: Byte, next: nat)
    | BalancedItem(b: Byte, e: Byte, next: nat)
    | Frontier(p: nat, next: nat)
    | Single(p: nat, next: nat)
    | Repeated(p: nat, ep: nat, c: Byte)

  /** What the pattern asks for at `p`. */
  function Parse(pat: seq<Byte>, p: nat): Item
    requires p <= |pat|
  {
    var c := At(pat, p);
    if c == 0 then End
    else if c == '(' as int then
      if At(pat, p + 1) == ')' as int then OpenCapture(CAP_POSITION, p + 2) else OpenCapture(CAP_UNFINISHED, p + 1)
    else if c == ')' as int then CloseCapture(p + 1)
    else if c == '$' as int && At(pat, p + 1) == 0 then EndAnchor
    else if c == ESC && At(pat, p + 1) == 'b' as int then
      if At(pat, p + 2) == 0 || At(pat, p + 3) == 0 then Malformed("unbalanced pattern")
        else BalancedItem(pat[p + 2], pat[p + 3], p + 4)
    else if c == ESC && At(pat, p + 1) == 'f' as int then
      if At(pat, p + 2) != '[' as int then Malformed("missing '[' after '%f' in pattern")
      else match ClassEnd(pat, p + 2)
           case Failure(error) => Malformed(error)
           case Success(ep) => Frontier(p + 2, ep)
    else if c == ESC && IsDigit(At(pat, p + 1)) then BackReference(pat[p + 1], p + 2)
    else match ClassEnd(pat, p)
         case Failure(error) => Malformed(error)
         case Success(ep) => if IsRepetition(At(pat, ep)) then Repeated(p, ep, pat[ep]) else Single(p, ep)
  }

  predicate IsRepetition(c: Byte) { c == '?' as int || c == '*' as int || c == '+' as int || c == '-' as int }

  /** Every item but the last takes the matcher further in the pattern. */
  lemma ParseGoesOn(pat: seq<Byte>, p: nat)
    requires p <= |pat|
    ensures match Parse(pat, p)
      case OpenCapture(_, q) => p < q <= |pat|
      case CloseCapture(q) => p < q <= |pat|
      case BackReference(_, q) => p < q <= |pat|
      case BalancedItem(b, _, q) => p < q <= |pat| && b != 0
      case Frontier(a, q) => p < a < q <= |pat| && pat[a] == '[' as int && ClassEnd(pat, a) == Success(q)
      case Single(a, q) => a == p < q <= |pat| && ClassEnd(pat, p) == Success(q)
      case Repeated(a, ep, c) => a == p < ep < |pat| && ClassEnd(pat, p) == Success(ep) && IsRepetition(c)
      case _ => true
  {
  }

  // ---- captures

  /** The captures lie in the part of the subject that has been matched. */
  predicate CapsOk(caps: seq<Cap>, s: nat) {
    |caps| <= MAXCAPTURES && forall i :: 0 <= i < |caps| ==> CapOk(caps[i], s)
  }

  predicate CapOk(c: Cap, s: nat) {
    c.init <= s && c.len >= CAP_POSITION && c.init + c.len <= s
  }

  /** `capture_to_close`: the last capture that is open. */
  function CaptureToClose(caps: seq<Cap>): (r: Option<nat>)
    ensures r.Some? ==> r.value < |caps| && caps[r.value].len == CAP_UNFINISHED && forall i :: r.value < i < |caps| ==>
      caps[i].len != CAP_UNFINISHED
    ensures r.None? ==> forall i :: 0 <= i < |caps| ==> caps[i].len != CAP_UNFINISHED
  {
    if caps == [] then None
    else if caps[|caps| - 1].len == CAP_UNFINISHED then Some(|caps| - 1)
    else CaptureToClose(caps[..|caps| - 1])
  }

  function Closed(caps: seq<Cap>, l: nat, s: nat): seq<Cap>
    requires l < |caps| && caps[l].init <= s
  {
    caps[l := Cap(caps[l].init, s - caps[l].init)]
  }

  /** `check_capture`. */
  predicate GoodIndex(caps: seq<Cap>, l: Byte) {
    1 <= l - '0' as int <= |caps| && caps[l - '1' as int].len != CAP_UNFINISHED
  }

  /** `match_capture`: the text of the capture, again. The length of a position capture is larger than
      any string when it is read as an unsigned number. */
  function AfterCapture(src: seq<Byte>, c: Cap, s: nat): (r: Option<nat>)
    requires s <= |src| && CapOk(c, s) && c.len != CAP_UNFINISHED
    ensures r.Some? ==> s <= r.value <= |src|
  {
    if c.len >= 0 && |src| - s >= c.len && src[c.init..c.init + c.len] == src[s..s + c.len] then Some(s + c.len)
      else None
  }

  predicate AtFrontier(src: seq<Byte>, pat: seq<Byte>, s: nat, p: nat, ep: nat)
    requires s <= |src| && p < |pat| && pat[p] == '[' as int && ClassEnd(pat, p) == Success(ep)
  {
    !InBracket(pat, if s == 0 then 0 else src[s - 1], p, ep - 1) && InBracket(pat, At(src, s), p, ep - 1)
  }

  // ---- repetitions

  /** How many repetitions an item allows. */
  function Least(c: Byte): nat { if c == '+' as int then 1 else 0 }

  function Most(c: Byte, max: nat): nat { if c == '?' as int && max > 1 then 1 else max }

  /** The number of repetitions that is tried after `k` others: the longest first, except for `-`. */
  function Alternative(c: Byte, max: nat, k: nat): nat
    requires Least(c) + k <= Most(c, max)
  {
    if c == '-' as int then Least(c) + k else Most(c, max) - k
  }

  // ---- backtracking

  datatype Ending = Dead | Done(e: nat, caps: seq<Cap>) | Bad(error: string)

  predicate EndsWell(r: Ending, t: Texts, s: nat) {
    r.Done? ==> s <= r.e <= |t.src| && CapsOk(r.caps, r.e)
  }

  lemma CapsStayOk(caps: seq<Cap>, s: nat, s': nat)
    requires CapsOk(caps, s) && s <= s'
    ensures CapsOk(caps, s')
  {
  }

  /** The first way to match the pattern from `p` on with the subject from `s` on. */
  function Search(t: Texts, p: nat, s: nat, caps: seq<Cap>): (r: Ending)
    requires p <= |t.pat| && s <= |t.src| && CapsOk(caps, s)
    ensures EndsWell(r, t, s)
    decreases |t.pat| - p, 0, 0
  {
    ParseGoesOn(t.pat, p);
    match Parse(t.pat, p)
    case Malformed(error) => Bad(error)
    case End => Done(s, caps)
    case EndAnchor => if s == |t.src| then Done(s, caps) else Dead
    case OpenCapture(what, q) =>
      if |caps| >= MAXCAPTURES then Bad("too many captures") else Search(t, q, s, caps + [Cap(s, what)])
    case CloseCapture(q) =>
      (match CaptureToClose(caps)
       case None => Bad("invalid pattern capture")
       case Some(l) => Search(t, q, s, Closed(caps, l, s)))
    case BackReference(l, q) =>
      if !GoodIndex(caps, l) then Bad("invalid capture index")
      else (match AfterCapture(t.src, caps[l - '1' as int], s)
            case None => Dead
            case Some(s') => CapsStayOk(caps, s, s'); Search(t, q, s', caps))
    case BalancedItem(b, e, q) =>
      (match Balance(t.src, b, e, s)
       case None => Dead
       case Some(s') => CapsStayOk(caps, s, s'); Search(t, q, s', caps))
    case Frontier(a, q) => if AtFrontier(t.src, t.pat, s, a, q) then Search(t, q, s, caps) else Dead
    case Single(_, q) =>
      if s < |t.src| && SingleMatch(t.pat, t.src[s], p, q) then CapsStayOk(caps, s, s + 1); Search(t, q, s + 1, caps)
        else Dead
    case Repeated(_, ep, c) => Try(t, ep, s, caps, c, RunLength(t.src, t.pat, s, p, ep), 0)
  }

  /** Tries the numbers of repetitions from the `k`-th preference on. */
  function Try(t: Texts, ep: nat, s: nat, caps: seq<Cap>, c: Byte, max: nat, k: nat): (r: Ending)
    requires ep < |t.pat| && s + max <= |t.src| && CapsOk(caps, s)
    ensures EndsWell(r, t, s)
    decreases |t.pat| - (ep + 1), 1, max + 1 - k
  {
    if Least(c) + k > Most(c, max) then Dead
    else
      var n := Alternative(c, max, k);
      CapsStayOk(caps, s, s + n);
      var r := Search(t, ep + 1, s + n, caps);
      if r != Dead then r else Try(t, ep, s, caps, c, max, k + 1)
  }

  // ---- ways through a pattern

  /** Follows the pattern, taking at each repetition the preference that `ks` gives. */
  function Run(t: Texts, p: nat, s: nat, caps: seq<Cap>, ks: seq<nat>): (r: Ending)
    requires p <= |t.pat| && s <= |t.src| && CapsOk(caps, s)
    ensures EndsWell(r, t, s)
    decreases |t.pat| - p
  {
    ParseGoesOn(t.pat, p);
    match Parse(t.pat, p)
    case Malformed(error) => Last(Bad(error), ks)
    case End => Last(Done(s, caps), ks)
    case EndAnchor => if s == |t.src| then Last(Done(s, caps), ks) else Dead
    case OpenCapture(what, q) =>
      if |caps| >= MAXCAPTURES then Last(Bad("too many captures"), ks) else Run(t, q, s, caps + [Cap(s, what)], ks)
    case CloseCapture(q) =>
      (match CaptureToClose(caps)
       case None => Last(Bad("invalid pattern capture"), ks)
       case Some(l) => Run(t, q, s, Closed(caps, l, s), ks))
    case BackReference(l, q) =>
      if !GoodIndex(caps, l) then Last(Bad("invalid capture index"), ks)
      else (match AfterCapture(t.src, caps[l - '1' as int], s)
            case None => Dead
            case Some(s') => CapsStayOk(caps, s, s'); Run(t, q, s', caps, ks))
    case BalancedItem(b, e, q) =>
      (match Balance(t.src, b, e, s)
       case None => Dead
       case Some(s') => CapsStayOk(caps, s, s'); Run(t, q, s', caps, ks))
    case Frontier(a, q) => if AtFrontier(t.src, t.pat, s, a, q) then Run(t, q, s, caps, ks) else Dead
    case Single(_, q) =>
      if s < |t.src| && SingleMatch(t.pat, t.src[s], p, q) then CapsStayOk(caps, s, s + 1); Run(t, q, s + 1, caps, ks)
        else Dead
    case Repeated(_, ep, c) =>
      var max := RunLength(t.src, t.pat, s, p, ep);
      if ks == [] || Least(c) + ks[0] > Most(c, max) then Dead
      else
        var n := Alternative(c, max, ks[0]);
        CapsStayOk(caps, s, s + n);
        Run(t, ep + 1, s + n, caps, ks[1..])
  }

  /** A way that ends has used up its choices. */
  function Last(r: Ending, ks: seq<nat>): Ending { if ks == [] then r else Dead }

  predicate LexLe(a: seq<nat>, b: seq<nat>) {
    a == [] || (b != [] && (a[0] < b[0] || (a[0] == b[0] && LexLe(a[1..], b[1..]))))
  }

  /** `ks` is the first way in the order of preference that does not die, and it ends with `r`. */
  ghost predicate FirstWay(t: Texts, p: nat, s: nat, caps: seq<Cap>, ks: seq<nat>, r: Ending)
    requires p <= |t.pat| && s <= |t.src| && CapsOk(caps, s)
  {
    && r != Dead && Run(t, p, s, caps, ks) == r
    && forall other :: Run(t, p, s, caps, other) != Dead ==> LexLe(ks, other)
  }

  ghost predicate NoWay(t: Texts, p: nat, s: nat, caps: seq<Cap>)
    requires p <= |t.pat| && s <= |t.src| && CapsOk(caps, s)
  {
    forall ks :: Run(t, p, s, caps, ks) == Dead
  }

  ghost predicate IsFirst(t: Texts, p: nat, s: nat, caps: seq<Cap>, r: Ending)
    requires p <= |t.pat| && s <= |t.src| && CapsOk(caps, s)
  {
    if r == Dead then NoWay(t, p, s, caps) else exists ks :: FirstWay(t, p, s, caps, ks, r)
  }

  /** Backtracking finds the first way that does not die, and finds none only if there is none. */
  lemma {:induction false} SearchIsFirst(t: Texts, p: nat, s: nat, caps: seq<Cap>)
    requires p <= |t.pat| && s <= |t.src| && CapsOk(caps, s)
    ensures IsFirst(t, p, s, caps, Search(t, p, s, caps))
    decreases |t.pat| - p, 0, 0
  {
    hide ClassEnd, RunLength, LexLe, SingleMatch;
    ParseGoesOn(t.pat, p);
    match Parse(t.pat, p) {
      case OpenCapture(what, q) =>
        if |caps| < MAXCAPTURES {
          SearchIsFirst(t, q, s, caps + [Cap(s, what)]);
          SameWays(t, p, s, caps, q, s, caps + [Cap(s, what)]);
        } else {
          EndsHere(t, p, s, caps);
        }
      case CloseCapture(q) =>
        var l := CaptureToClose(caps);
        if l.Some? {
          SearchIsFirst(t, q, s, Closed(caps, l.value, s));
          SameWays(t, p, s, caps, q, s, Closed(caps, l.value, s));
        } else {
          EndsHere(t, p, s, caps);
        }
      case BackReference(l, q) =>
        if GoodIndex(caps, l) {
          var s' := AfterCapture(t.src, caps[l - '1' as int], s);
          if s'.Some? {
            CapsStayOk(caps, s, s'.value);
            SearchIsFirst(t, q, s'.value, caps);
            SameWays(t, p, s, caps, q, s'.value, caps);
          }
        } else {
          EndsHere(t, p, s, caps);
        }
      case BalancedItem(b, e, q) =>
        var s' := Balance(t.src, b, e, s);
        if s'.Some? {
          CapsStayOk(caps, s, s'.value);
          SearchIsFirst(t, q, s'.value, caps);
          SameWays(t, p, s, caps, q, s'.value, caps);
        }
      case Frontier(a, q) =>
        if AtFrontier(t.src, t.pat, s, a, q) {
          SearchIsFirst(t, q, s, caps);
          SameWays(t, p, s, caps, q, s, caps);
        }
      case Single(_, q) =>
        if s < |t.src| && SingleMatch(t.pat, t.src[s], p, q) {
          CapsStayOk(caps, s, s + 1);
          SearchIsFirst(t, q, s + 1, caps);
          SameWays(t, p, s, caps, q, s + 1, caps);
        }
      case Repeated(_, ep, c) =>
        TryIsFirst(t, p, s, caps, ep, c, 0);
      case _ =>
        EndsHere(t, p, s, caps);
    }
  }

  /** The pattern goes on from another place, with nothing to choose here. */
  lemma SameWays(t: Texts, p: nat, s: nat, caps: seq<Cap>, q: nat, s': nat, caps': seq<Cap>)
    requires p <= |t.pat| && s <= |t.src| && CapsOk(caps, s) && q <= |t.pat| && s' <= |t.src| && CapsOk(caps', s')
    requires forall ks :: Run(t, p, s, caps, ks) == Run(t, q, s', caps', ks)
    requires Search(t, p, s, caps) == Search(t, q, s', caps')
    requires IsFirst(t, q, s', caps', Search(t, q, s', caps'))
    ensures IsFirst(t, p, s, caps, Search(t, p, s, caps))
  {
    var r := Search(t, q, s', caps');
    if r != Dead {
      var ks :| FirstWay(t, q, s', caps', ks, r);
      assert FirstWay(t, p, s, caps, ks, r);
    }
  }

  /** The matcher stops here: there is one way at most, without choices. */
  lemma EndsHere(t: Texts, p: nat, s: nat, caps: seq<Cap>)
    requires p <= |t.pat| && s <= |t.src| && CapsOk(caps, s)
    requires forall ks :: Run(t, p, s, caps, ks) == Last(Search(t, p, s, caps), ks)
    ensures IsFirst(t, p, s, caps, Search(t, p, s, caps))
  {
    var r := Search(t, p, s, caps);
    if r != Dead {
      assert FirstWay(t, p, s, caps, [], r);
    }
  }

  /** From the `k`-th preference on, when the others have died. */
  lemma {:induction false} TryIsFirst(t: Texts, p: nat, s: nat, caps: seq<Cap>, ep: nat, c: Byte, k: nat)
    requires p <= |t.pat| && s <= |t.src| && CapsOk(caps, s) && Parse(t.pat, p) == Repeated(p, ep, c) &&
      p < ep < |t.pat| && ClassEnd(t.pat, p) == Success(ep)
    requires forall ks :: ks != [] && ks[0] < k ==> Run(t, p, s, caps, ks) == Dead
    ensures IsFirst(t, p, s, caps, Try(t, ep, s, caps, c, RunLength(t.src, t.pat, s, p, ep), k))
    decreases |t.pat| - (ep + 1), 1, RunLength(t.src, t.pat, s, p, ep) + 1 - k
  {
    hide Parse, ClassEnd, RunLength, Search, LexLe, AfterCapture, Balance, AtFrontier, SingleMatch, GoodIndex,
      CaptureToClose, CapsOk;
    var max := RunLength(t.src, t.pat, s, p, ep);
    if Least(c) + k <= Most(c, max) {
      var n := Alternative(c, max, k);
      CapsStayOk(caps, s, s + n);
      SearchIsFirst(t, ep + 1, s + n, caps);
      var r := Search(t, ep + 1, s + n, caps);
      if r != Dead {
        var ks :| FirstWay(t, ep + 1, s + n, caps, ks, r);
        ChosenIsFirst(t, p, s, caps, ep, c, k, ks, r);
      } else {
        forall ks: seq<nat> | ks != [] && ks[0] == k ensures Run(t, p, s, caps, ks) == Dead {
          assert Run(t, ep + 1, s + n, caps, ks[1..]) == Dead;
        }
        TryIsFirst(t, p, s, caps, ep, c, k + 1);
      }
    }
  }

  lemma ChosenIsFirst(t: Texts, p: nat, s: nat, caps: seq<Cap>, ep: nat, c: Byte, k: nat, ks: seq<nat>, r: Ending)
    requires p <= |t.pat| && s <= |t.src| && CapsOk(caps, s) && Parse(t.pat, p) == Repeated(p, ep, c) &&
      p < ep < |t.pat| && ClassEnd(t.pat, p) == Success(ep)
    requires forall ks :: ks != [] && ks[0] < k ==> Run(t, p, s, caps, ks) == Dead
    requires Least(c) + k <= Most(c, RunLength(t.src, t.pat, s, p, ep))
    requires var n := Alternative(c, RunLength(t.src, t.pat, s, p, ep), k);
      CapsOk(caps, s + n) && FirstWay(t, ep + 1, s + n, caps, ks, r)
    ensures FirstWay(t, p, s, caps, [k] + ks, r)
  {
    var n := Alternative(c, RunLength(t.src, t.pat, s, p, ep), k);
    assert ([k] + ks)[1..] == ks;
    forall other | Run(t, p, s, caps, other) != Dead ensures LexLe([k] + ks, other) {
      if other[0] == k {
        assert Run(t, ep + 1, s + n, caps, other[1..]) != Dead;
      }
    }
  }

  // ---- the order of preference, without counting

  /** `n` characters match the item at `p`, and its suffix allows as many. */
  ghost predicate MayRepeat(t: Texts, p: nat, ep: nat, s: nat, n: nat)
    requires p < ep < |t.pat| && ClassEnd(t.pat, p) == Success(ep)
  {
    && s + n <= |t.src| && (forall i :: s <= i < s + n ==> SingleMatch(t.pat, t.src[i], p, ep))
    && (t.pat[ep] == '+' as int ==> n >= 1) && (t.pat[ep] == '?' as int ==> n <= 1)
  }

  /** What the rest of the pattern does after `n` repetitions. */
  function AfterRepetitions(t: Texts, ep: nat, s: nat, caps: seq<Cap>, n: nat): Ending
    requires ep < |t.pat| && s + n <= |t.src| && CapsOk(caps, s)
  {
    CapsStayOk(caps, s, s + n);
    Search(t, ep + 1, s + n, caps)
  }

  /** The number of repetitions after which the rest of the pattern does not die, and which is the least such
      number for `-`, and the greatest for `*`, `+` and `?`. */
  ghost predicate Prefers(t: Texts, p: nat, ep: nat, s: nat, caps: seq<Cap>, n: nat)
    requires p < ep < |t.pat| && ClassEnd(t.pat, p) == Success(ep) && s <= |t.src| && CapsOk(caps, s)
  {
    && MayRepeat(t, p, ep, s, n) && AfterRepetitions(t, ep, s, caps, n) != Dead
    && forall k: nat :: MayRepeat(t, p, ep, s, k) && AfterRepetitions(t, ep, s, caps, k) != Dead ==>
         if t.pat[ep] == '-' as int then n <= k else k <= n
  }

  lemma MayRepeatIs(t: Texts, p: nat, ep: nat, s: nat, n: nat)
    requires p < ep < |t.pat| && ClassEnd(t.pat, p) == Success(ep) && s <= |t.src| && IsRepetition(t.pat[ep])
    ensures MayRepeat(t, p, ep, s, n) <==>
      Least(t.pat[ep]) <= n <= Most(t.pat[ep], RunLength(t.src, t.pat, s, p, ep))
  {
    hide SingleMatch, ClassEnd;
    RunLengthIs(t.src, t.pat, s, p, ep, n);
  }

  /** The `k`-th number of repetitions that is tried does not lead anywhere. */
  predicate DiesAt(t: Texts, ep: nat, s: nat, caps: seq<Cap>, c: Byte, max: nat, k: nat)
    requires ep < |t.pat| && s + max <= |t.src| && CapsOk(caps, s)
  {
    Least(c) + k <= Most(c, max) ==> AfterRepetitions(t, ep, s, caps, Alternative(c, max, k)) == Dead
  }

  lemma {:induction false} TryFindsFirst(t: Texts, ep: nat, s: nat, caps: seq<Cap>, c: Byte, max: nat, k: nat)
      returns (j: nat)
    requires ep < |t.pat| && s + max <= |t.src| && CapsOk(caps, s)
    requires forall i: nat :: i < k ==> DiesAt(t, ep, s, caps, c, max, i)
    ensures forall i: nat :: i < j ==> DiesAt(t, ep, s, caps, c, max, i)
    ensures var r := Try(t, ep, s, caps, c, max, k);
      if r == Dead then Least(c) + j > Most(c, max)
      else Least(c) + j <= Most(c, max) && AfterRepetitions(t, ep, s, caps, Alternative(c, max, j)) == r
    decreases max + 1 - k
  {
    hide CapsOk, Search, EndsWell;
    if Least(c) + k > Most(c, max) || !DiesAt(t, ep, s, caps, c, max, k) {
      j := k;
    } else {
      j := TryFindsFirst(t, ep, s, caps, c, max, k + 1);
    }
  }

  /** A repetition goes on with the preferred number of them, and dies only if all of them die. */
  lemma RepetitionIs(t: Texts, p: nat, s: nat, caps: seq<Cap>, ep: nat, c: Byte)
    requires p <= |t.pat| && s <= |t.src| && CapsOk(caps, s) && Parse(t.pat, p) == Repeated(p, ep, c)
    requires p < ep < |t.pat| && ClassEnd(t.pat, p) == Success(ep)
    ensures c == t.pat[ep]
    ensures Search(t, p, s, caps) == Dead ==>
      forall n: nat :: MayRepeat(t, p, ep, s, n) ==> AfterRepetitions(t, ep, s, caps, n) == Dead
    ensures Search(t, p, s, caps) != Dead ==>
      exists n: nat :: Prefers(t, p, ep, s, caps, n) && AfterRepetitions(t, ep, s, caps, n) == Search(t, p, s, caps)
    ensures forall n: nat :: Prefers(t, p, ep, s, caps, n) ==>
      AfterRepetitions(t, ep, s, caps, n) == Search(t, p, s, caps)
  {
    hide SingleMatch, ClassEnd, RunLength, MayRepeat, AfterRepetitions, CapsOk;
    var max := RunLength(t.src, t.pat, s, p, ep);
    assert c == t.pat[ep] && IsRepetition(c) && Search(t, p, s, caps) == Try(t, ep, s, caps, c, max, 0);
    hide Parse, Search, Try;
    var j := TryFindsFirst(t, ep, s, caps, c, max, 0);
    forall n: nat ensures MayRepeat(t, p, ep, s, n) <==> Least(c) <= n <= Most(c, max) {
      MayRepeatIs(t, p, ep, s, n);
    }
    forall n: nat | MayRepeat(t, p, ep, s, n) && AfterRepetitions(t, ep, s, caps, n) != Dead
      ensures j <= (if c == '-' as int then n - Least(c) else Most(c, max) - n)
    {
      var i := if c == '-' as int then n - Least(c) else Most(c, max) - n;
      assert Alternative(c, max, i) == n;
      assert !DiesAt(t, ep, s, caps, c, max, i);
    }
    if Search(t, p, s, caps) != Dead {
      assert Prefers(t, p, ep, s, caps, Alternative(c, max, j));
    }
  }
}
