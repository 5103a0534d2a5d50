/** What patterns mean, stated of their structure as section 5.4.1 of the reference manual describes it, and not of
    the characters that they are written with. */
module LuaPatternMeaning {
  import opened LuaResults
  import opened LuaPatterns
  import opened LuaPatternSearch

  // ---- the structure of patterns

  datatype SetItem = Letter(c: Byte) | Span(lo: Byte, hi: Byte) | Kind(k: Byte)

  datatype Class = AnyChar | Exactly(c: Byte) | OfKind(k: Byte) | OneOf(negated: bool, items: seq<SetItem>)

  datatype Piece =
    | Once(cl: Class)
    | Repeat(cl: Class, suffix: Byte)
    | Here                                      // a position capture
    | Open
    | Close
    | Again(i: Byte)                            // the text of capture i
    | Pair(x: Byte, y: Byte)                    // a balanced string
    | Border(negated: bool, items: seq<SetItem>)

  // ---- characters

  predicate Within(c: Byte, lo: int, hi: int) { lo <= c <= hi }

  predicate IsWordChar(c: Byte) { Within(c, 0x30, 0x39) || Within(c, 0x41, 0x5A) || Within(c, 0x61, 0x7A) }

  /** The kinds that are named by a small letter. */
  predicate HasKind(c: Byte, k: Byte) {
    if k == 0x61 then Within(c, 0x41, 0x5A) || Within(c, 0x61, 0x7A)                    // %a: letters
    else if k == 0x63 then Within(c, 0, 0x1F) || c == 0x7F                              // %c: control characters
    else if k == 0x64 then Within(c, 0x30, 0x39)                                        // %d: digits
    else if k == 0x6C then Within(c, 0x61, 0x7A)                                        // %l: lower case letters
    else if k == 0x70 then Within(c, 0x21, 0x7E) && !IsWordChar(c)                      // %p: punctuation
    else if k == 0x73 then Within(c, 0x09, 0x0D) || c == 0x20                           // %s: space
    else if k == 0x75 then Within(c, 0x41, 0x5A)                                        // %u: upper case letters
    else if k == 0x77 then IsWordChar(c)                                                // %w: letters and digits
    else if k == 0x78 then Within(c, 0x30, 0x39) || Within(c, 0x41, 0x46) || Within(c, 0x61, 0x66)   // %x
    else k == 0x7A && c == 0                                                            // %z: the zero byte
  }

  predicate IsSmallKind(k: Byte) { k in [0x61, 0x63, 0x64, 0x6C, 0x70, 0x73, 0x75, 0x77, 0x78, 0x7A] }

  predicate IsKind(k: Byte) { IsSmallKind(k) || (Within(k, 0x41, 0x5A) && IsSmallKind(k + 0x20)) }

  /** A capital letter names the complement. */
  predicate OfThisKind(c: Byte, k: Byte) { if Within(k, 0x41, 0x5A) then !HasKind(c, k + 0x20) else HasKind(c, k) }

  predicate InItem(c: Byte, item: SetItem) {
    match item
    case Letter(x) => c == x
    case Span(lo, hi) => lo <= c <= hi
    case Kind(k) => OfThisKind(c, k)
  }

  predicate InSome(c: Byte, items: seq<SetItem>) { exists i :: 0 <= i < |items| && InItem(c, items[i]) }

  predicate InItems(c: Byte, negated: bool, items: seq<SetItem>) { InSome(c, items) != negated }

  predicate InClass(c: Byte, cl: Class) {
    match cl
    case AnyChar => true
    case Exactly(x) => c == x
    case OfKind(k) => OfThisKind(c, k)
    case OneOf(negated, items) => InItems(c, negated, items)
  }

  // ---- matching

  /** `n` characters from `s` on are of the class, and the suffix allows as many. */
  ghost predicate Allowed(src: seq<Byte>, cl: Class, suffix: Byte, s: nat, n: nat) {
    && s + n <= |src| && (forall i :: s <= i < s + n ==> InClass(src[i], cl))
    && (suffix == 0x2B ==> n >= 1) && (suffix == 0x3F ==> n <= 1)
  }

  /** The capture that was opened last among those that are still open. */
  ghost predicate LastOpen(caps: seq<Cap>, l: nat) {
    l < |caps| && caps[l].len == CAP_UNFINISHED && forall i :: l < i < |caps| ==> caps[i].len != CAP_UNFINISHED
  }

  ghost predicate SomeOpen(caps: seq<Cap>) { exists l: nat :: LastOpen(caps, l) }

  /** The text of the capture stands at `s` again. */
  predicate StandsAt(src: seq<Byte>, c: Cap, s: nat) {
    c.len >= 0 && c.init + c.len <= |src| && s + c.len <= |src| &&
      src[s..s + c.len] == src[c.init..c.init + c.len]
  }

  function CharAt(src: seq<Byte>, i: int): Byte { if 0 <= i < |src| then src[i] else 0 }

  /** Matching the pieces from `s` on, and then the end of the subject if `end` is set, has the result `r`. */
  ghost predicate Means(src: seq<Byte>, ps: seq<Piece>, end: bool, s: nat, caps: seq<Cap>, r: Ending)
    decreases |ps|
  {
    if ps == [] then r == if end && s != |src| then Dead else Done(s, caps)
    else
      var rest := ps[1..];
      match ps[0]
      case Once(cl) =>
        if s < |src| && InClass(src[s], cl) then Means(src, rest, end, s + 1, caps, r) else r == Dead
      case Repeat(cl, suffix) =>
        if r == Dead then forall n: nat :: Allowed(src, cl, suffix, s, n) ==> Means(src, rest, end, s + n, caps, Dead)
        else
          exists n: nat :: Allowed(src, cl, suffix, s, n) && Means(src, rest, end, s + n, caps, r) &&
            forall k: nat :: Allowed(src, cl, suffix, s, k) && (if suffix == 0x2D then k < n else k > n) ==>
              Means(src, rest, end, s + k, caps, Dead)
      case Here =>
        if |caps| == 32 then r == Bad("too many captures")
        else Means(src, rest, end, s, caps + [Cap(s, CAP_POSITION)], r)
      case Open =>
        if |caps| == 32 then r == Bad("too many captures")
        else Means(src, rest, end, s, caps + [Cap(s, CAP_UNFINISHED)], r)
      case Close =>
        if !SomeOpen(caps) then r == Bad("invalid pattern capture")
        else exists l: nat :: LastOpen(caps, l) && caps[l].init <= s &&
               Means(src, rest, end, s, caps[l := Cap(caps[l].init, s - caps[l].init)], r)
      case Again(i) =>
        if !(1 <= i <= |caps|) || caps[i - 1].len == CAP_UNFINISHED then r == Bad("invalid capture index")
        else if StandsAt(src, caps[i - 1], s) then Means(src, rest, end, s + caps[i - 1].len, caps, r)
        else r == Dead
      case Pair(x, y) =>
        if exists e: nat :: Balanced(src, x, y, s, e)
        then exists e: nat :: Balanced(src, x, y, s, e) && Means(src, rest, end, e, caps, r)
        else r == Dead
      case Border(negated, items) =>
        if !InItems(CharAt(src, s - 1), negated, items) && InItems(CharAt(src, s), negated, items)
        then Means(src, rest, end, s, caps, r) else r == Dead
  }

  // ---- how patterns are written

  const PERCENT: Byte := 0x25

  /** A character that is no letter or digit stands for itself after a percent sign. */
  function WriteChar(c: Byte): (w: seq<Byte>)
    ensures w != []
  {
    if IsWordChar(c) then [c] else [PERCENT, c]
  }

  function WriteItem(item: SetItem): (w: seq<Byte>)
    ensures w != []
  {
    match item
    case Letter(c) => WriteChar(c)
    case Span(lo, hi) => [lo, 0x2D, hi]
    case Kind(k) => [PERCENT, k]
  }

  function WriteItems(items: seq<SetItem>): seq<Byte> {
    if items == [] then [] else WriteItem(items[0]) + WriteItems(items[1..])
  }

  function WriteSet(negated: bool, items: seq<SetItem>): seq<Byte> {
    (if negated then [0x5B, 0x5E] else [0x5B]) + WriteItems(items) + [0x5D]
  }

  function WriteClass(cl: Class): (w: seq<Byte>)
    ensures w != []
  {
    match cl
    case AnyChar => [0x2E]
    case Exactly(c) => WriteChar(c)
    case OfKind(k) => [PERCENT, k]
    case OneOf(negated, items) => WriteSet(negated, items)
  }

  function WritePiece(piece: Piece): (w: seq<Byte>)
    requires PieceOk(piece)
    ensures w != []
  {
    match piece
    case Once(cl) => WriteClass(cl)
    case Repeat(cl, suffix) => WriteClass(cl) + [suffix]
    case Here => [0x28, 0x29]
    case Open => [0x28]
    case Close => [0x29]
    case Again(i) => [PERCENT, 0x30 + i]
    case Pair(x, y) => [PERCENT, 0x62, x, y]
    case Border(negated, items) => [PERCENT, 0x66] + WriteSet(negated, items)
  }

  function Write(ps: seq<Piece>, end: bool): seq<Byte>
    requires WellFormed(ps)
  {
    if ps == [] then if end then [0x24] else [] else WritePiece(ps[0]) + Write(ps[1..], end)
  }

  predicate ItemOk(item: SetItem) {
    match item
    case Letter(c) => c != 0
    case Span(lo, hi) => IsWordChar(lo) && IsWordChar(hi)
    case Kind(k) => IsKind(k)
  }

  predicate ItemsOk(items: seq<SetItem>) {
    items != [] && forall i :: 0 <= i < |items| ==> ItemOk(items[i])
  }

  predicate ClassOk(cl: Class) {
    match cl
    case AnyChar => true
    case Exactly(c) => c != 0
    case OfKind(k) => IsKind(k)
    case OneOf(_, items) => ItemsOk(items)
  }

  predicate PieceOk(piece: Piece) {
    match piece
    case Once(cl) => ClassOk(cl)
    case Repeat(cl, suffix) => ClassOk(cl) && suffix in [0x2A, 0x2B, 0x2D, 0x3F]
    case Again(i) => 1 <= i <= 9
    case Pair(x, y) => x != 0 && y != 0
    case Border(_, items) => ItemsOk(items)
    case _ => true
  }

  /** The zero byte cannot be written in a pattern, the bounds of a range are letters or digits, and a pair of
      parentheses with nothing between them would be a position capture. */
  predicate WellFormed(ps: seq<Piece>) {
    ps != [] ==> PieceOk(ps[0]) && !(ps[0].Open? && |ps| > 1 && ps[1].Close?) && WellFormed(ps[1..])
  }

  // ---- the matcher reads what is written

  /** `w` stands in the pattern at `p`. */
  predicate Stands(pat: seq<Byte>, p: nat, w: seq<Byte>) {
    p + |w| <= |pat| && pat[p..p + |w|] == w
  }

  lemma StandsChar(pat: seq<Byte>, p: nat, w: seq<Byte>, i: nat)
    requires Stands(pat, p, w) && i < |w|
    ensures pat[p + i] == w[i]
  {
    assert pat[p..p + |w|][i] == w[i];
  }

  lemma StandsBoth(pat: seq<Byte>, p: nat, a: seq<Byte>, b: seq<Byte>)
    requires Stands(pat, p, a + b)
    ensures Stands(pat, p, a) && Stands(pat, p + |a|, b)
  {
    assert pat[p..p + |a|] == pat[p..p + |a + b|][..|a|];
    assert pat[p + |a|..p + |a| + |b|] == pat[p..p + |a + b|][|a|..];
  }

  lemma KindIs(c: Byte, k: Byte)
    ensures IsKind(k) ==> (MatchClass(c, k) <==> OfThisKind(c, k))
    ensures !IsWordChar(k) ==> (MatchClass(c, k) <==> c == k)
  {
  }

  /** The first character of an item. */
  lemma ItemBegins(pat: seq<Byte>, p: nat, item: SetItem)
    requires ItemOk(item) && Stands(pat, p, WriteItem(item))
    ensures IsWordChar(pat[p]) || pat[p] == PERCENT
  {
    StandsChar(pat, p, WriteItem(item), 0);
  }

  /** The search for the end of a set goes over one item. */
  lemma ItemIsPassed(pat: seq<Byte>, p: nat, item: SetItem)
    requires ItemOk(item) && Stands(pat, p, WriteItem(item)) && p + |WriteItem(item)| < |pat|
    ensures var q := p + |WriteItem(item)|; SetEnd(pat, p) == if pat[q] == 0x5D then Some(q) else SetEnd(pat, q)
  {
    var w := WriteItem(item);
    StandsChar(pat, p, w, 0);
    if |w| > 1 {
      StandsChar(pat, p, w, 1);
    }
    if item.Span? {
      StandsChar(pat, p, w, 2);
      assert SetEnd(pat, p + 2) == if pat[p + 3] == 0x5D then Some(p + 3) else SetEnd(pat, p + 3);
      assert SetEnd(pat, p + 1) == SetEnd(pat, p + 2);
    }
  }

  /** A character is looked for in one item, and then in the others. */
  lemma ItemIsChecked(pat: seq<Byte>, c: Byte, p: nat, item: SetItem, ec: nat)
    requires ItemOk(item) && Stands(pat, p, WriteItem(item)) && p + |WriteItem(item)| <= ec < |pat|
    requires pat[p + |WriteItem(item)|] != 0x2D
    ensures InSet(pat, c, p, ec) <==> InItem(c, item) || InSet(pat, c, p + |WriteItem(item)|, ec)
  {
    hide MatchClass, OfThisKind;
    var w := WriteItem(item);
    StandsChar(pat, p, w, 0);
    if |w| > 1 {
      StandsChar(pat, p, w, 1);
      KindIs(c, w[1]);
    }
    if item.Span? {
      StandsChar(pat, p, w, 2);
    }
  }

  /** One item, when what is after it has been read. */
  lemma OneMoreItem(pat: seq<Byte>, c: Byte, p: nat, item: SetItem, q: nat, ec: nat)
    requires ItemOk(item) && Stands(pat, p, WriteItem(item)) && q == p + |WriteItem(item)| && q <= ec < |pat|
    requires pat[q] != 0x2D && if q == ec then pat[q] == 0x5D else pat[q] != 0x5D && SetEnd(pat, q) == Some(ec)
    ensures SetEnd(pat, p) == Some(ec) && pat[p] != 0x2D && pat[p] != 0x5D && pat[p] != 0x5E
    ensures InSet(pat, c, p, ec) <==> InItem(c, item) || InSet(pat, c, q, ec)
  {
    hide SetEnd, InSet, InItem, WriteItem, ItemOk, Stands;
    ItemBegins(pat, p, item);
    ItemIsPassed(pat, p, item);
    ItemIsChecked(pat, c, p, item, ec);
  }

  /** All items of a set, up to the bracket that closes it. */
  ghost predicate ItemsRead(pat: seq<Byte>, c: Byte, p: nat, items: seq<SetItem>, ec: nat) {
    && p <= ec < |pat| && pat[ec] == 0x5D && (if items == [] then p == ec else SetEnd(pat, p) == Some(ec))
    && (items != [] ==> pat[p] != 0x5D) && pat[p] != 0x2D && pat[p] != 0x5E
    && (InSet(pat, c, p, ec) <==> InSome(c, items))
  }

  lemma {:induction false} ItemsAreRead(pat: seq<Byte>, c: Byte, p: nat, items: seq<SetItem>)
    requires (forall i :: 0 <= i < |items| ==> ItemOk(items[i])) && Stands(pat, p, WriteItems(items) + [0x5D])
    ensures ItemsRead(pat, c, p, items, p + |WriteItems(items)|)
    decreases items
  {
    hide InItem, ItemOk, SetEnd, InSet, InSome, Stands, WriteItem;
    if items == [] {
      assert [] + [0x5D] == [0x5D];
      ClosingBracket(pat, c, p);
    } else {
      var w, rest := WriteItem(items[0]), WriteItems(items[1..]) + [0x5D];
      assert WriteItems(items) + [0x5D] == w + rest;
      StandsBoth(pat, p, w, rest);
      ItemsAreRead(pat, c, p + |w|, items[1..]);
      OneMoreItem(pat, c, p, items[0], p + |w|, p + |w| + |WriteItems(items[1..])|);
      InSomeSplits(c, items);
    }
  }

  lemma ClosingBracket(pat: seq<Byte>, c: Byte, p: nat)
    requires Stands(pat, p, [0x5D])
    ensures p < |pat| && pat[p] == 0x5D && !InSet(pat, c, p, p) && !InSome(c, [])
  {
    StandsChar(pat, p, [0x5D], 0);
  }

  lemma InSomeSplits(c: Byte, items: seq<SetItem>)
    requires items != []
    ensures InSome(c, items) <==> InItem(c, items[0]) || InSome(c, items[1..])
  {
    hide InItem;
    if i :| 0 <= i < |items| && InItem(c, items[i]) {
      assert i > 0 ==> InItem(c, items[1..][i - 1]);
    }
    if i :| 0 <= i < |items[1..]| && InItem(c, items[1..][i]) {
      assert InItem(c, items[i + 1]);
    }
  }

  lemma SetIsRead(pat: seq<Byte>, c: Byte, p: nat, negated: bool, items: seq<SetItem>)
    requires ItemsOk(items) && Stands(pat, p, WriteSet(negated, items))
    ensures var ep := p + |WriteSet(negated, items)|;
      && pat[p] == 0x5B && ClassEnd(pat, p) == Success(ep)
      && (InBracket(pat, c, p, ep - 1) <==> InItems(c, negated, items))
  {
    hide InItem, ItemOk, SetEnd, InSet, InSome, Stands, WriteItems;
    var head: seq<Byte> := if negated then [0x5B, 0x5E] else [0x5B];
    assert WriteSet(negated, items) == head + (WriteItems(items) + [0x5D]);
    StandsBoth(pat, p, head, WriteItems(items) + [0x5D]);
    StandsChar(pat, p, head, 0);
    if negated {
      StandsChar(pat, p, head, 1);
    }
    ItemsAreRead(pat, c, p + |head|, items);
    StandsLength(pat, p, head);
  }

  lemma StandsLength(pat: seq<Byte>, p: nat, w: seq<Byte>)
    requires Stands(pat, p, w)
    ensures p + |w| <= |pat|
  {
  }

  lemma ClassIsRead(pat: seq<Byte>, c: Byte, p: nat, cl: Class)
    requires ClassOk(cl) && Stands(pat, p, WriteClass(cl))
    ensures p < |pat| && ClassEnd(pat, p) == Success(p + |WriteClass(cl)|)
    ensures SingleMatch(pat, c, p, p + |WriteClass(cl)|) <==> InClass(c, cl)
  {
    hide InItems, ItemsOk, InBracket, SetEnd, MatchClass, OfThisKind, WriteSet;
    var w := WriteClass(cl);
    if cl.OneOf? {
      SetIsRead(pat, c, p, cl.negated, cl.items);
    } else {
      StandsChar(pat, p, w, 0);
      if |w| > 1 {
        StandsChar(pat, p, w, 1);
        KindIs(c, w[1]);
      }
    }
  }

  // ---- pieces

  predicate IsSuffix(c: Byte) { c in [0x2A, 0x2B, 0x2D, 0x3F] }

  /** What comes after a piece is not taken for a part of it. */
  predicate TailOk(piece: Piece, tail: seq<Byte>) {
    tail != [] ==> !IsSuffix(tail[0]) && (piece.Open? ==> tail[0] != 0x29)
  }

  lemma ClassBegins(cl: Class)
    requires ClassOk(cl)
    ensures var w := WriteClass(cl);
      w != [] && (w[0] == 0x2E || IsWordChar(w[0]) || w[0] == 0x5B ||
        (w[0] == PERCENT && |w| > 1 && (!IsWordChar(w[1]) || IsKind(w[1]))))
  {
  }

  lemma PieceBegins(piece: Piece)
    requires PieceOk(piece)
    ensures var w := WritePiece(piece); w != [] && !IsSuffix(w[0]) && (w[0] == 0x29 ==> piece.Close?)
  {
    hide WriteClass, ClassOk, WriteSet;
    if piece.Once? || piece.Repeat? {
      ClassBegins(piece.cl);
    }
  }

  lemma TailIsOk(ps: seq<Piece>, end: bool)
    requires WellFormed(ps) && ps != []
    ensures TailOk(ps[0], Write(ps[1..], end))
  {
    hide WritePiece, PieceOk;
    if |ps| > 1 {
      PieceBegins(ps[1]);
    }
  }

  /** The pattern goes on with `w`, and then with `tail` to its end. */
  predicate GoesOn(pat: seq<Byte>, p: nat, w: seq<Byte>, tail: seq<Byte>) {
    p <= |pat| && pat[p..] == w + tail
  }

  lemma GoneOn(pat: seq<Byte>, p: nat, w: seq<Byte>, tail: seq<Byte>)
    requires GoesOn(pat, p, w, tail)
    ensures Stands(pat, p, w) && pat[p + |w|..] == tail
    ensures At(pat, p + |w|) == if tail == [] then 0 else tail[0]
  {
    assert pat[p..p + |w|] == pat[p..][..|w|];
    assert pat[p + |w|..] == pat[p..][|w|..];
    if tail != [] {
      assert pat[p + |w|] == pat[p + |w|..][0];
    }
  }

  /** What the parser sees of a class, with or without a suffix. */
  lemma ClassIsParsed(pat: seq<Byte>, p: nat, cl: Class)
    requires ClassOk(cl) && Stands(pat, p, WriteClass(cl))
    ensures var ep := p + |WriteClass(cl)|;
      Parse(pat, p) == if IsRepetition(At(pat, ep)) then Repeated(p, ep, pat[ep]) else Single(p, ep)
  {
    hide InItems, ItemsOk, InBracket, SetEnd, WriteSet, ClassEnd, SingleMatch, InClass;
    var w := WriteClass(cl);
    ClassIsRead(pat, 0, p, cl);
    ClassBegins(cl);
    StandsChar(pat, p, w, 0);
    if w[0] == PERCENT {
      StandsChar(pat, p, w, 1);
    }
    hide WriteClass, ClassOk;
  }

  /** What the parser makes of a piece from `p` to `q`. */
  function ItemOf(piece: Piece, p: nat, q: nat): Item
    requires PieceOk(piece) && p < q
  {
    match piece
    case Once(_) => Single(p, q)
    case Repeat(_, suffix) => Repeated(p, q - 1, suffix)
    case Here => OpenCapture(CAP_POSITION, q)
    case Open => OpenCapture(CAP_UNFINISHED, q)
    case Close => CloseCapture(q)
    case Again(i) => BackReference(0x30 + i, q)
    case Pair(x, y) => BalancedItem(x, y, q)
    case Border(_, _) => Frontier(p + 2, q)
  }

  lemma PieceIsParsed(pat: seq<Byte>, p: nat, piece: Piece, tail: seq<Byte>)
    requires PieceOk(piece) && GoesOn(pat, p, WritePiece(piece), tail) && TailOk(piece, tail)
    ensures var q := p + |WritePiece(piece)|;
      && q <= |pat| && pat[q..] == tail
      && Parse(pat, p) == ItemOf(piece, p, q)
  {
    hide Parse, GoesOn, WritePiece, ItemOf, PieceOk;
    GoneOn(pat, p, WritePiece(piece), tail);
    if piece.Once? || piece.Repeat? {
      ItemIsParsed(pat, p, piece, tail);
    } else if piece.Border? {
      BorderIsParsed(pat, p, piece);
    } else {
      MarkIsParsed(pat, p, piece, tail);
    }
  }

  lemma ItemIsParsed(pat: seq<Byte>, p: nat, piece: Piece, tail: seq<Byte>)
    requires (piece.Once? || piece.Repeat?) && PieceOk(piece) && Stands(pat, p, WritePiece(piece)) &&
      TailOk(piece, tail)
    requires At(pat, p + |WritePiece(piece)|) == if tail == [] then 0 else tail[0]
    ensures Parse(pat, p) == ItemOf(piece, p, p + |WritePiece(piece)|)
  {
    hide WriteClass, ClassOk, Parse;
    if piece.Repeat? {
      StandsBoth(pat, p, WriteClass(piece.cl), [piece.suffix]);
      StandsChar(pat, p + |WriteClass(piece.cl)|, [piece.suffix], 0);
    }
    ClassIsParsed(pat, p, piece.cl);
  }

  lemma BorderIsParsed(pat: seq<Byte>, p: nat, piece: Piece)
    requires piece.Border? && PieceOk(piece) && Stands(pat, p, WritePiece(piece))
    ensures Parse(pat, p) == ItemOf(piece, p, p + |WritePiece(piece)|)
  {
    hide WriteSet, ItemsOk, ClassEnd;
    StandsBoth(pat, p, [PERCENT, 0x66], WriteSet(piece.negated, piece.items));
    StandsChar(pat, p, [PERCENT, 0x66], 0);
    StandsChar(pat, p, [PERCENT, 0x66], 1);
    SetIsRead(pat, 0, p + 2, piece.negated, piece.items);
  }

  /** The pieces that are written with one to four characters. */
  lemma MarkIsParsed(pat: seq<Byte>, p: nat, piece: Piece, tail: seq<Byte>)
    requires piece.Here? || piece.Open? || piece.Close? || piece.Again? || piece.Pair?
    requires PieceOk(piece) && Stands(pat, p, WritePiece(piece)) && TailOk(piece, tail)
    requires At(pat, p + |WritePiece(piece)|) == if tail == [] then 0 else tail[0]
    ensures var q := p + |WritePiece(piece)|;
      Parse(pat, p) == ItemOf(piece, p, q)
  {
    hide ClassEnd;
    var w := WritePiece(piece);
    StandsChar(pat, p, w, 0);
    if |w| > 1 {
      StandsChar(pat, p, w, 1);
    }
    if |w| > 2 {
      StandsChar(pat, p, w, 2);
      StandsChar(pat, p, w, 3);
    }
  }

  // ---- the matcher does what patterns mean

  /** The pieces are written in the pattern from `p` to its end. */
  predicate Written(t: Texts, p: nat, ps: seq<Piece>, end: bool) {
    p <= |t.pat| && WellFormed(ps) && t.pat[p..] == Write(ps, end)
  }

  /** The place of the first piece, and of those after it. */
  lemma FirstPiece(t: Texts, p: nat, ps: seq<Piece>, end: bool)
    requires Written(t, p, ps, end) && ps != []
    ensures PieceOk(ps[0]) && GoesOn(t.pat, p, WritePiece(ps[0]), Write(ps[1..], end)) &&
      TailOk(ps[0], Write(ps[1..], end))
    ensures p + |WritePiece(ps[0])| <= |t.pat| && Written(t, p + |WritePiece(ps[0])|, ps[1..], end)
  {
    hide WritePiece, TailOk;
    TailIsOk(ps, end);
    GoneOn(t.pat, p, WritePiece(ps[0]), Write(ps[1..], end));
  }

  lemma NothingIsLeft(t: Texts, p: nat, end: bool, s: nat, caps: seq<Cap>)
    requires Written(t, p, [], end) && s <= |t.src| && CapsOk(caps, s)
    ensures Search(t, p, s, caps) == if end && s != |t.src| then Dead else Done(s, caps)
  {
    hide ClassEnd;
    if end {
      assert t.pat[p..][0] == 0x24;
    }
    assert Parse(t.pat, p) == if end then EndAnchor else End;
  }

  /** Pieces at one position. */
  lemma SearchOnce(t: Texts, p: nat, cl: Class, q: nat, s: nat, caps: seq<Cap>)
    requires p <= |t.pat| && s <= |t.src| && CapsOk(caps, s) && Parse(t.pat, p) == Single(p, q) && q <= |t.pat|
    requires ClassOk(cl) && Stands(t.pat, p, WriteClass(cl)) && q == p + |WriteClass(cl)|
    ensures CapsOk(caps, s + 1)
    ensures Search(t, p, s, caps) ==
      if s < |t.src| && InClass(t.src[s], cl) then Search(t, q, s + 1, caps) else Dead
  {
    hide ClassEnd, SingleMatch, InClass, WriteClass, ClassOk, Parse, Try, RunLength, Balance, AtFrontier;
    CapsStayOk(caps, s, s + 1);
    if s < |t.src| {
      ClassIsRead(t.pat, t.src[s], p, cl);
    }
  }

  lemma SearchClose(t: Texts, p: nat, q: nat, s: nat, caps: seq<Cap>)
    requires p <= |t.pat| && s <= |t.src| && CapsOk(caps, s) && Parse(t.pat, p) == CloseCapture(q) && q <= |t.pat|
    ensures !SomeOpen(caps) ==> Search(t, p, s, caps) == Bad("invalid pattern capture")
    ensures forall l: nat :: LastOpen(caps, l) ==>
      var caps' := caps[l := Cap(caps[l].init, if caps[l].init <= s then s - caps[l].init else 0)];
      caps[l].init <= s && CapsOk(caps', s) && Search(t, p, s, caps) == Search(t, q, s, caps')
  {
    hide Parse, Try, RunLength, Balance, AtFrontier, ClassEnd;
    var last := CaptureToClose(caps);
    if last.Some? {
      assert LastOpen(caps, last.value) && SomeOpen(caps);
      assert CapOk(caps[last.value], s);
      assert CapsOk(Closed(caps, last.value, s), s);
    }
    forall l: nat | LastOpen(caps, l) ensures last == Some(l) {
    }
  }

  lemma SearchAgain(t: Texts, p: nat, i: Byte, q: nat, s: nat, caps: seq<Cap>)
    requires p <= |t.pat| && s <= |t.src| && CapsOk(caps, s) && 1 <= i <= 9 && q <= |t.pat|
    requires Parse(t.pat, p) == BackReference(0x30 + i, q)
    ensures if i > |caps| || caps[i - 1].len == CAP_UNFINISHED
      then Search(t, p, s, caps) == Bad("invalid capture index")
      else if !StandsAt(t.src, caps[i - 1], s) then Search(t, p, s, caps) == Dead
      else CapsOk(caps, s + caps[i - 1].len) && Search(t, p, s, caps) == Search(t, q, s + caps[i - 1].len, caps)
  {
    hide Parse, Try, RunLength, Balance, AtFrontier, ClassEnd;
    if i <= |caps| && caps[i - 1].len != CAP_UNFINISHED {
      assert CapOk(caps[i - 1], s);
      assert GoodIndex(caps, 0x30 + i);
      var next := AfterCapture(t.src, caps[i - 1], s);
      assert next.Some? <==> StandsAt(t.src, caps[i - 1], s);
      if next.Some? {
        CapsStayOk(caps, s, next.value);
      }
    }
  }

  lemma SearchPair(t: Texts, p: nat, x: Byte, y: Byte, q: nat, s: nat, caps: seq<Cap>)
    requires p <= |t.pat| && s <= |t.src| && CapsOk(caps, s) && Parse(t.pat, p) == BalancedItem(x, y, q) &&
      q <= |t.pat| && x != 0
    ensures (forall e: nat :: !Balanced(t.src, x, y, s, e)) ==> Search(t, p, s, caps) == Dead
    ensures forall e: nat :: Balanced(t.src, x, y, s, e) ==>
      e <= |t.src| && CapsOk(caps, e) && Search(t, p, s, caps) == Search(t, q, e, caps)
  {
    hide Parse, Try, RunLength, Balance, AtFrontier, ClassEnd, Balanced;
    BalanceIs(t.src, x, y, s);
    var next := Balance(t.src, x, y, s);
    if next.Some? {
      assert Balanced(t.src, x, y, s, next.value);
      CapsStayOk(caps, s, next.value);
    }
  }

  lemma SearchBorder(t: Texts, p: nat, negated: bool, items: seq<SetItem>, q: nat, s: nat, caps: seq<Cap>)
    requires p + 2 <= q <= |t.pat| && s <= |t.src| && CapsOk(caps, s) && Parse(t.pat, p) == Frontier(p + 2, q)
    requires ItemsOk(items) && Stands(t.pat, p + 2, WriteSet(negated, items)) &&
      q == p + 2 + |WriteSet(negated, items)|
    ensures Search(t, p, s, caps) ==
      if !InItems(CharAt(t.src, s - 1), negated, items) && InItems(CharAt(t.src, s), negated, items)
      then Search(t, q, s, caps) else Dead
  {
    hide Parse, Try, RunLength, Balance, ClassEnd, InBracket, InItems, ItemsOk, WriteSet, Stands;
    SetIsRead(t.pat, CharAt(t.src, s - 1), p + 2, negated, items);
    SetIsRead(t.pat, CharAt(t.src, s), p + 2, negated, items);
    assert At(t.src, s) == CharAt(t.src, s);
  }

  /** The repetitions that the class and the suffix allow are those that the matcher counts. */
  lemma AllowedIs(t: Texts, p: nat, cl: Class, ep: nat, s: nat, n: nat)
    requires ClassOk(cl) && Stands(t.pat, p, WriteClass(cl)) && ep == p + |WriteClass(cl)| < |t.pat|
    ensures p < ep && ClassEnd(t.pat, p) == Success(ep)
    ensures MayRepeat(t, p, ep, s, n) <==> Allowed(t.src, cl, t.pat[ep], s, n)
  {
    hide ClassOk, WriteClass, Stands, ClassEnd, SingleMatch, InClass;
    ClassIsRead(t.pat, 0, p, cl);
    ClassBegins(cl);
    forall c: Byte ensures SingleMatch(t.pat, c, p, ep) <==> InClass(c, cl) {
      ClassIsRead(t.pat, c, p, cl);
    }
  }

  /** The pieces after `n` repetitions mean what the matcher does. */
  ghost predicate MeansAfter(t: Texts, rest: seq<Piece>, end: bool, s: nat, caps: seq<Cap>, ep: nat, n: nat,
      r: Ending)
    requires ep < |t.pat| && CapsOk(caps, s)
  {
    s + n <= |t.src| ==> (Means(t.src, rest, end, s + n, caps, r) <==> AfterRepetitions(t, ep, s, caps, n) == r)
  }

  /** A repetition means what the matcher does, if the pieces after it do. */
  lemma RepeatMeans(t: Texts, p: nat, ps: seq<Piece>, end: bool, s: nat, caps: seq<Cap>, ep: nat, r: Ending)
    requires ps != [] && ps[0].Repeat? && p <= |t.pat| && s <= |t.src| && CapsOk(caps, s)
    requires ClassOk(ps[0].cl) && Stands(t.pat, p, WriteClass(ps[0].cl)) && ep == p + |WriteClass(ps[0].cl)| < |t.pat|
    requires Parse(t.pat, p) == Repeated(p, ep, ps[0].suffix) && t.pat[ep] == ps[0].suffix
    requires forall n: nat, r' :: MeansAfter(t, ps[1..], end, s, caps, ep, n, r')
    ensures Means(t.src, ps, end, s, caps, r) <==> Search(t, p, s, caps) == r
  {
    hide ClassOk, WriteClass, Stands, ClassEnd, SingleMatch, InClass, Parse, Search, CapsOk, AfterRepetitions,
      MayRepeat, Allowed;
    var cl, suffix := ps[0].cl, ps[0].suffix;
    AllowedIs(t, p, cl, ep, s, 0);
    forall n: nat ensures MayRepeat(t, p, ep, s, n) <==> Allowed(t.src, cl, suffix, s, n) {
      AllowedIs(t, p, cl, ep, s, n);
    }
    forall n: nat | Allowed(t.src, cl, suffix, s, n) ensures s + n <= |t.src| {
      AllowedFits(t.src, cl, suffix, s, n);
    }
    RepetitionIs(t, p, s, caps, ep, suffix);
    if r != Dead {
      PreferredMeans(t, p, ps, end, s, caps, ep, r);
    } else {
      forall n: nat | Allowed(t.src, cl, suffix, s, n)
        ensures Means(t.src, ps[1..], end, s + n, caps, Dead) <==> AfterRepetitions(t, ep, s, caps, n) == Dead
      {
        assert MeansAfter(t, ps[1..], end, s, caps, ep, n, Dead);
      }
    }
  }

  lemma AllowedFits(src: seq<Byte>, cl: Class, suffix: Byte, s: nat, n: nat)
    requires Allowed(src, cl, suffix, s, n)
    ensures s + n <= |src|
  {
  }

  /** The preferred number is the one before which all others die. */
  lemma PreferredMeans(t: Texts, p: nat, ps: seq<Piece>, end: bool, s: nat, caps: seq<Cap>, ep: nat, r: Ending)
    requires ps != [] && ps[0].Repeat? && s <= |t.src| && CapsOk(caps, s) && r != Dead
    requires p < ep < |t.pat| && ClassEnd(t.pat, p) == Success(ep) && t.pat[ep] == ps[0].suffix
    requires forall n: nat, r' :: MeansAfter(t, ps[1..], end, s, caps, ep, n, r')
    requires forall n: nat :: MayRepeat(t, p, ep, s, n) <==> Allowed(t.src, ps[0].cl, ps[0].suffix, s, n)
    ensures Means(t.src, ps, end, s, caps, r) <==>
      exists n: nat :: Prefers(t, p, ep, s, caps, n) && AfterRepetitions(t, ep, s, caps, n) == r
  {
    hide ClassEnd, CapsOk, AfterRepetitions, MayRepeat, Allowed;
    var cl, suffix := ps[0].cl, ps[0].suffix;
    forall n: nat | Allowed(t.src, cl, suffix, s, n) ensures s + n <= |t.src| {
      AllowedFits(t.src, cl, suffix, s, n);
    }
    if Means(t.src, ps, end, s, caps, r) {
      var n: nat :| Allowed(t.src, cl, suffix, s, n) && Means(t.src, ps[1..], end, s + n, caps, r) &&
        forall k: nat :: Allowed(t.src, cl, suffix, s, k) && (if suffix == 0x2D then k < n else k > n) ==>
          Means(t.src, ps[1..], end, s + k, caps, Dead);
      assert MeansAfter(t, ps[1..], end, s, caps, ep, n, r);
      forall k: nat | MayRepeat(t, p, ep, s, k) && AfterRepetitions(t, ep, s, caps, k) != Dead
        ensures if suffix == 0x2D then n <= k else k <= n
      {
        assert MeansAfter(t, ps[1..], end, s, caps, ep, k, Dead);
      }
      assert Prefers(t, p, ep, s, caps, n);
    }
    if n: nat :| Prefers(t, p, ep, s, caps, n) && AfterRepetitions(t, ep, s, caps, n) == r {
      assert MeansAfter(t, ps[1..], end, s, caps, ep, n, r);
      forall k: nat | Allowed(t.src, cl, suffix, s, k) && (if suffix == 0x2D then k < n else k > n)
        ensures Means(t.src, ps[1..], end, s + k, caps, Dead)
      {
        assert MayRepeat(t, p, ep, s, k) && MeansAfter(t, ps[1..], end, s, caps, ep, k, Dead);
      }
    }
  }

  /** Whatever pieces the pattern is written with, the matcher finds what they mean. */
  lemma {:induction false} MatcherFindsMeaning(t: Texts, p: nat, ps: seq<Piece>, end: bool, s: nat, caps: seq<Cap>,
      r: Ending)
    requires Written(t, p, ps, end) && s <= |t.src| && CapsOk(caps, s)
    ensures Means(t.src, ps, end, s, caps, r) <==> Search(t, p, s, caps) == r
    decreases |ps|, 1
  {
    hide Search, CapsOk, Parse, InClass, InItems, PieceOk, WritePiece, GoesOn, TailOk, Balanced, StandsAt, LastOpen,
      ItemOf;
    if ps == [] {
      NothingIsLeft(t, p, end, s, caps);
    } else {
      FirstPiece(t, p, ps, end);
      GoneOn(t.pat, p, WritePiece(ps[0]), Write(ps[1..], end));
      PieceIsParsed(t.pat, p, ps[0], Write(ps[1..], end));
      PieceMeans(t, p, p + |WritePiece(ps[0])|, ps, end, s, caps, r);
    }
  }

  /** One piece, from `p` to `q`. */
  lemma {:induction false} PieceMeans(t: Texts, p: nat, q: nat, ps: seq<Piece>, end: bool, s: nat, caps: seq<Cap>,
      r: Ending)
    requires ps != [] && PieceOk(ps[0]) && Stands(t.pat, p, WritePiece(ps[0])) && q == p + |WritePiece(ps[0])|
    requires q <= |t.pat| && Parse(t.pat, p) == ItemOf(ps[0], p, q) && Written(t, q, ps[1..], end)
    requires s <= |t.src| && CapsOk(caps, s)
    ensures Means(t.src, ps, end, s, caps, r) <==> Search(t, p, s, caps) == r
    decreases |ps|, 0
  {
    hide Search, CapsOk, Written, Parse, InClass, InItems, ClassOk, ItemsOk, WriteClass, WriteSet, Balanced, StandsAt,
      LastOpen, Stands;
    var rest := ps[1..];
    match ps[0]
    case Once(cl) =>
      SearchOnce(t, p, cl, q, s, caps);
      if s < |t.src| && InClass(t.src[s], cl) {
        MatcherFindsMeaning(t, q, rest, end, s + 1, caps, r);
      }
    case Repeat(cl, suffix) =>
      StandsBoth(t.pat, p, WriteClass(cl), [suffix]);
      StandsChar(t.pat, p + |WriteClass(cl)|, [suffix], 0);
      RestMeans(t, p + |WriteClass(cl)|, rest, end, s, caps);
      RepeatMeans(t, p, ps, end, s, caps, p + |WriteClass(cl)|, r);
    case Here => CaptureMeans(t, p, q, ps, end, s, caps, CAP_POSITION, r);
    case Open => CaptureMeans(t, p, q, ps, end, s, caps, CAP_UNFINISHED, r);
    case Close => CloseMeans(t, p, q, ps, end, s, caps, r);
    case Again(i) => AgainMeans(t, p, q, ps, end, s, caps, r);
    case Pair(x, y) => PairMeans(t, p, q, ps, end, s, caps, r);
    case Border(negated, items) =>
      StandsBoth(t.pat, p, [PERCENT, 0x66], WriteSet(negated, items));
      SearchBorder(t, p, negated, items, q, s, caps);
      MatcherFindsMeaning(t, q, rest, end, s, caps, r);
  }

  lemma {:induction false} RestMeans(t: Texts, ep: nat, rest: seq<Piece>, end: bool, s: nat, caps: seq<Cap>)
    requires ep < |t.pat| && Written(t, ep + 1, rest, end) && s <= |t.src| && CapsOk(caps, s)
    ensures forall n: nat, r :: MeansAfter(t, rest, end, s, caps, ep, n, r)
    decreases |rest|, 2
  {
    hide Written, Means, CapsOk, Search;
    forall n: nat, r ensures MeansAfter(t, rest, end, s, caps, ep, n, r) {
      if s + n <= |t.src| {
        CapsStayOk(caps, s, s + n);
        MatcherFindsMeaning(t, ep + 1, rest, end, s + n, caps, r);
      }
    }
  }

  /** The text of a capture. */
  lemma {:induction false} AgainMeans(t: Texts, p: nat, q: nat, ps: seq<Piece>, end: bool, s: nat, caps: seq<Cap>,
      r: Ending)
    requires ps != [] && ps[0].Again? && 1 <= ps[0].i <= 9 && q <= |t.pat| && p <= |t.pat| &&
      Parse(t.pat, p) == BackReference(0x30 + ps[0].i, q) && Written(t, q, ps[1..], end)
    requires s <= |t.src| && CapsOk(caps, s)
    ensures Means(t.src, ps, end, s, caps, r) <==> Search(t, p, s, caps) == r
    decreases |ps|, 0, 0
  {
    hide Written, Parse, Search, CapsOk;
    var i := ps[0].i;
    SearchAgain(t, p, i, q, s, caps);
    if i <= |caps| && caps[i - 1].len != CAP_UNFINISHED && StandsAt(t.src, caps[i - 1], s) {
      MatcherFindsMeaning(t, q, ps[1..], end, s + caps[i - 1].len, caps, r);
    }
  }

  /** A balanced string. */
  lemma {:induction false} PairMeans(t: Texts, p: nat, q: nat, ps: seq<Piece>, end: bool, s: nat, caps: seq<Cap>,
      r: Ending)
    requires ps != [] && ps[0].Pair? && ps[0].x != 0 && q <= |t.pat| && p <= |t.pat| &&
      Parse(t.pat, p) == BalancedItem(ps[0].x, ps[0].y, q) && Written(t, q, ps[1..], end)
    requires s <= |t.src| && CapsOk(caps, s)
    ensures Means(t.src, ps, end, s, caps, r) <==> Search(t, p, s, caps) == r
    decreases |ps|, 0, 0
  {
    hide Written, Parse, Search, CapsOk, Balanced;
    SearchPair(t, p, ps[0].x, ps[0].y, q, s, caps);
    forall e: nat | Balanced(t.src, ps[0].x, ps[0].y, s, e)
      ensures Means(t.src, ps[1..], end, e, caps, r) <==> Search(t, p, s, caps) == r
    {
      MatcherFindsMeaning(t, q, ps[1..], end, e, caps, r);
    }
  }

  /** A capture is closed. */
  lemma {:induction false} CloseMeans(t: Texts, p: nat, q: nat, ps: seq<Piece>, end: bool, s: nat, caps: seq<Cap>,
      r: Ending)
    requires ps != [] && ps[0] == Close && q <= |t.pat| && p <= |t.pat| && Parse(t.pat, p) == CloseCapture(q) &&
      Written(t, q, ps[1..], end)
    requires s <= |t.src| && CapsOk(caps, s)
    ensures Means(t.src, ps, end, s, caps, r) <==> Search(t, p, s, caps) == r
    decreases |ps|, 0, 0
  {
    hide Written, Parse, Search, CapsOk;
    SearchClose(t, p, q, s, caps);
    forall l: nat | LastOpen(caps, l)
      ensures caps[l].init <= s && (Search(t, p, s, caps) == r <==>
        Means(t.src, ps[1..], end, s, caps[l := Cap(caps[l].init, s - caps[l].init)], r))
    {
      MatcherFindsMeaning(t, q, ps[1..], end, s, caps[l := Cap(caps[l].init, s - caps[l].init)], r);
    }
  }

  /** A capture is opened. */
  lemma {:induction false} CaptureMeans(t: Texts, p: nat, q: nat, ps: seq<Piece>, end: bool, s: nat, caps: seq<Cap>,
      what: int, r: Ending)
    requires ps != [] && q <= |t.pat| && p <= |t.pat| && Parse(t.pat, p) == OpenCapture(what, q) &&
      Written(t, q, ps[1..], end)
    requires s <= |t.src| && CapsOk(caps, s) && (what == CAP_POSITION || what == CAP_UNFINISHED)
    ensures if |caps| == 32 then Search(t, p, s, caps) == Bad("too many captures")
      else Means(t.src, ps[1..], end, s, caps + [Cap(s, what)], r) <==> Search(t, p, s, caps) == r
    decreases |ps|, 0, 0
  {
    hide Written, Parse, Means, ClassEnd, Try, RunLength, Balance, AtFrontier;
    if |caps| < 32 {
      assert CapsOk(caps + [Cap(s, what)], s);
      MatcherFindsMeaning(t, q, ps[1..], end, s, caps + [Cap(s, what)], r);
    }
  }
}
