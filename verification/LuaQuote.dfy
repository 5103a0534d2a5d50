/** String literals: the option `%q` of `string.format` (lstrlib.c) and the lexer (llex.c). */
module LuaQuote {
  import opened LuaResults
  import opened LuaPatterns
  import opened LuaZio

  const QUOTE: Byte := '"' as int
  const BACKSLASH: Byte := '\\' as int
  const NEWLINE: Byte := 10
  const RETURN: Byte := 13

  // ---- quoting

  /** What is written for a character. */
  function Escape(c: Byte): (r: seq<Byte>)
    ensures r != [] && r[0] != RETURN
  {
    if c == QUOTE || c == BACKSLASH || c == NEWLINE then [BACKSLASH, c]
    else if c == RETURN then [BACKSLASH, 'r' as int]
    else if c == 0 then [BACKSLASH, '0' as int, '0' as int, '0' as int]
    else [c]
  }

  function Escaped(s: seq<Byte>): seq<Byte> {
    if s == [] then [] else Escape(s[0]) + Escaped(s[1..])
  }

  lemma {:induction false} EscapedOneMore(s: seq<Byte>, c: Byte)
    ensures Escaped(s + [c]) == Escaped(s) + Escape(c)
  {
    if s != [] {
      EscapedOneMore(s[1..], c);
      assert (s + [c])[1..] == s[1..] + [c];
      assert Escape(s[0]) + (Escaped(s[1..]) + Escape(c)) == (Escape(s[0]) + Escaped(s[1..])) + Escape(c);
    } else {
      assert (s + [c])[1..] == [];
      assert Escape(c) + [] == Escape(c);
    }
  }

  /** `addquoted`. */
  method AddQuoted(s: seq<Byte>) returns (b: seq<Byte>)
    ensures b == [QUOTE] + Escaped(s) + [QUOTE]
  {
    hide Escaped;
    b := [QUOTE];
    var i := 0;
    assert Escaped(s[..0]) == [] by { NothingEscaped(); }
    while i < |s|
      invariant i <= |s| && b == [QUOTE] + Escaped(s[..i])
    {
      var c := s[i];
      EscapedOneMore(s[..i], c);
      assert s[..i + 1] == s[..i] + [c];
      if c == QUOTE || c == BACKSLASH || c == NEWLINE {
        b := b + [BACKSLASH] + [c];
      } else if c == RETURN {
        b := b + [BACKSLASH, 'r' as int];
      } else if c == 0 {
        b := b + [BACKSLASH, '0' as int, '0' as int, '0' as int];
      } else {
        b := b + [c];
      }
      i := i + 1;
    }
    assert s[..i] == s;
    b := b + [QUOTE];
  }

  lemma NothingEscaped()
    ensures Escaped([]) == []
  {
  }

  // ---- reading

  datatype Scanned = Scanned(value: seq<Byte>, rest: seq<Byte>, line: nat)

  function IsNewline(c: Byte): bool { c == NEWLINE || c == RETURN }

  /** The escapes of one letter. */
  function LetterEscape(c: Byte): Option<Byte> {
    if c == 'a' as int then Some(7) else if c == 'b' as int then Some(8) else if c == 'f' as int then Some(12)
    else if c == 'n' as int then Some(10) else if c == 'r' as int then Some(13) else if c == 't' as int then Some(9)
    else if c == 'v' as int then Some(11) else None
  }

  /** `\ddd`: up to three digits, of which `i` have been read. */
  function Decimal(ts: seq<Byte>, c: nat, i: nat): (r: (nat, seq<Byte>))
    requires ts != [] && IsDigit(ts[0])
    ensures |r.1| < |ts|
  {
    var c' := 10 * c + (ts[0] - '0' as int);
    if i + 1 < 3 && |ts| > 1 && IsDigit(ts[1]) then Decimal(ts[1..], c', i + 1) else (c', ts[1..])
  }

  /** `inclinenumber`: two different newline characters are one newline. */
  function AfterNewline(ts: seq<Byte>): (rest: seq<Byte>)
    requires ts != [] && IsNewline(ts[0])
    ensures |rest| < |ts|
  {
    if |ts| > 1 && IsNewline(ts[1]) && ts[1] != ts[0] then ts[2..] else ts[1..]
  }

  function Before(b: seq<Byte>, r: Result<Scanned>): Result<Scanned> {
    match r
    case Success(x) => Success(Scanned(b + x.value, x.rest, x.line))
    case Failure(error) => Failure(error)
  }

  /** What the characters after the opening delimiter stand for. */
  function Literal(del: Byte, ts: seq<Byte>, line: nat): Result<Scanned>
    decreases |ts|
  {
    if ts == [] then Failure("unfinished string")
    else if ts[0] == del then Success(Scanned([], ts[1..], line))
    else if IsNewline(ts[0]) then Failure("unfinished string")
    else if ts[0] == BACKSLASH then ReadEscape(del, ts[1..], line)
    else Before([ts[0]], Literal(del, ts[1..], line))
  }

  function ReadEscape(del: Byte, ts: seq<Byte>, line: nat): Result<Scanned>
    decreases |ts|
  {
    if ts == [] then Failure("unfinished string")
    else if LetterEscape(ts[0]).Some? then Before([LetterEscape(ts[0]).value], Literal(del, ts[1..], line))
    else if IsNewline(ts[0]) then
      if line + 1 >= MAX_INT then Failure("chunk has too many lines")
      else Before([NEWLINE], Literal(del, AfterNewline(ts), line + 1))
    else if IsDigit(ts[0]) then
      var d := Decimal(ts, 0, 0);
      if d.0 > 255 then Failure("escape sequence too large") else Before([d.0], Literal(del, d.1, line))
    else Before([ts[0]], Literal(del, ts[1..], line))
  }

  /** `current` is the next character, or EOZ. */
  class Lexer {
    const z: Zio
    var current: int
    var linenumber: nat
    var buff: seq<Byte>

    ghost predicate Valid()
      reads this, z
    {
      current == EOZ || (0 <= current < 256 && z.Valid())
    }

    /** The characters from the current one on. */
    ghost function Input(): seq<Byte>
      requires Valid()
      reads this, z
    {
      if current == EOZ then [] else [current as Byte] + z.Content()
    }

    /** `luaX_setinput` and the first character. */
    constructor (z: Zio)
      requires z.Valid()
      modifies z
      ensures this.z == z && Valid() && Input() == old(z.Content()) && linenumber == 1 && buff == []
    {
      this.z, linenumber, buff := z, 1, [];
      new;
      current := z.GetC();
    }

    method Next()
      requires Valid() && current != EOZ
      modifies this`current, z
      ensures Valid() && Input() == old(Input())[1..]
    {
      current := z.GetC();
    }

    method Save(c: Byte)
      modifies this`buff
      ensures buff == old(buff) + [c]
    {
      buff := buff + [c];
    }

    method SaveAndNext()
      requires Valid() && current != EOZ
      modifies this`buff, this`current, z
      ensures Valid() && buff == old(buff) + [old(Input())[0]] && Input() == old(Input())[1..]
    {
      Save(current);
      Next();
    }

    method IncLineNumber() returns (r: Result<()>)
      requires Valid() && current != EOZ && IsNewline(current)
      modifies this`current, this`linenumber, z
      ensures Valid() && Input() == AfterNewline(old(Input())) && linenumber == old(linenumber) + 1
      ensures r.Failure? <==> linenumber >= MAX_INT
      ensures r.Failure? ==> r.error == "chunk has too many lines"
    {
      var previous := current;
      Next();
      if current != EOZ && IsNewline(current) && current != previous {
        Next();
      }
      linenumber := linenumber + 1;
      return if linenumber >= MAX_INT then Failure("chunk has too many lines") else Success(());
    }

    method ReadDecimal() returns (c: nat)
      requires Valid() && current != EOZ && IsDigit(current)
      modifies this`current, z
      ensures Valid() && (c, Input()) == Decimal(old(Input()), 0, 0)
    {
      hide Decimal;
      ghost var ts := Input();
      var i, again := 0, true;
      c := 0;
      while again
        invariant Valid() && i <= 3
        invariant again ==>
          i < 3 && current != EOZ && IsDigit(current) && Decimal(ts, 0, 0) == Decimal(Input(), c, i)
        invariant !again ==> Decimal(ts, 0, 0) == (c, Input())
        decreases 3 - i, again
      {
        NextDigit(Input(), c, i);
        c := 10 * c + (current - '0' as int);
        Next();
        i := i + 1;
        again := i < 3 && current != EOZ && IsDigit(current);
      }
    }

    /** After a backslash, saves the character that the escape stands for. */
    method ReadEscaped(del: Byte) returns (r: Result<()>)
      requires Valid()
      modifies this, z
      ensures Valid()
      ensures r.Success? ==>
        Saved(old(buff), ReadEscape(del, old(Input()), old(linenumber)), del) && |Input()| <= |old(Input())|
      ensures r.Failure? ==> ReadEscape(del, old(Input()), old(linenumber)) == Failure(r.error)
    {
      ghost var ts := Input();
      hide Literal, Decimal;
      if current == EOZ {
        AtTheEnd(del, linenumber);
        return Success(());
      }
      var c := LetterEscape(current);
      if c.Some? {
        Save(c.value);
        Next();
      } else if IsNewline(current) {
        Save(NEWLINE);
        var ok := IncLineNumber();
        if ok.Failure? {
          return ok;
        }
      } else if !IsDigit(current) {
        SaveAndNext();
      } else {
        var d := ReadDecimal();
        if d > 255 {
          return Failure("escape sequence too large");
        }
        Save(d);
      }
      return Success(());
    }

    /** What has been saved since `buff` was `before`, with what follows, is `whole`. */
    ghost predicate Saved(before: seq<Byte>, whole: Result<Scanned>, del: Byte)
      requires Valid()
      reads this, z
    {
      before <= buff && whole == Before(buff[|before|..], Literal(del, Input(), linenumber))
    }

    /** `read_string`, at the opening delimiter. */
    method ReadString() returns (r: Result<seq<Byte>>)
      requires Valid() && current != EOZ && buff == []
      modifies this, z
      ensures Valid()
      ensures match Literal(old(Input())[0], old(Input())[1..], old(linenumber))
              case Success(x) => r == Success(x.value) && Input() == x.rest && linenumber == x.line
              case Failure(error) => r == Failure(error)
    {
      hide ReadEscape, Before;
      var del: Byte := current;
      SaveAndNext();
      ghost var whole := Literal(del, Input(), linenumber);
      ghost var opening := [del];
      NothingBefore(whole);
      assert buff == opening && buff[1..] == [];
      while current != del
        invariant Valid() && Saved(opening, whole, del)
        decreases |Input()|
      {
        ghost var before := buff;
        if current == EOZ || IsNewline(current) {
          BeforeFailure(before[1..], "unfinished string");
          return Failure("unfinished string");
        } else if current == BACKSLASH {
          Next();
          var ok := ReadEscaped(del);
          if ok.Failure? {
            BeforeFailure(before[1..], ok.error);
            return Failure(ok.error);
          }
        } else {
          SaveAndNext();
          assert buff[|before|..] == [buff[|before|]];
        }
        BeforeMore(before, buff, Literal(del, Input(), linenumber));
      }
      BeforeTheEnd(buff[1..], Input()[1..], linenumber);
      ghost var value := buff[1..];
      SaveAndNext();
      assert buff[1..|buff| - 1] == value;
      return Success(buff[1..|buff| - 1]);
    }
  }

  lemma NextDigit(ts: seq<Byte>, c: nat, i: nat)
    requires ts != [] && IsDigit(ts[0])
    ensures var c' := 10 * c + (ts[0] - '0' as int);
      Decimal(ts, c, i) ==
        if i + 1 < 3 && |ts| > 1 && IsDigit(ts[1]) then Decimal(ts[1..], c', i + 1) else (c', ts[1..])
  {
  }

  lemma AtTheEnd(del: Byte, line: nat)
    ensures ReadEscape(del, [], line) == Before([], Literal(del, [], line))
  {
  }

  lemma NothingBefore(r: Result<Scanned>)
    ensures Before([], r) == r
  {
    if r.Success? {
      assert [] + r.value.value == r.value.value;
    }
  }

  lemma BeforeFailure(a: seq<Byte>, error: string)
    ensures Before(a, Failure(error)) == Failure(error)
  {
  }

  lemma BeforeTheEnd(a: seq<Byte>, rest: seq<Byte>, line: nat)
    ensures Before(a, Success(Scanned([], rest, line))) == Success(Scanned(a, rest, line))
  {
    assert a + [] == a;
  }

  /** What the buffer holds after its opening delimiter has grown. */
  lemma BeforeMore(b: seq<Byte>, b': seq<Byte>, r: Result<Scanned>)
    requires 1 <= |b| && b <= b'
    ensures Before(b[1..], Before(b'[|b|..], r)) == Before(b'[1..], r)
  {
    BeforeBefore(b[1..], b'[|b|..], r);
    assert b'[1..] == b[1..] + b'[|b|..];
  }

  lemma BeforeBefore(a: seq<Byte>, b: seq<Byte>, r: Result<Scanned>)
    ensures Before(a, Before(b, r)) == Before(a + b, r)
  {
    if r.Success? {
      assert a + (b + r.value.value) == (a + b) + r.value.value;
    }
  }

  // ---- what is quoted is read back

  function Newlines(s: seq<Byte>): nat {
    if s == [] then 0 else Newlines(s[1..]) + if s[0] == NEWLINE then 1 else 0
  }

  lemma EscapedStarts(s: seq<Byte>, rest: seq<Byte>)
    ensures Escaped(s) + [QUOTE] + rest != [] && (Escaped(s) + [QUOTE] + rest)[0] != RETURN
  {
  }

  /** The lexer reads exactly the quoted string, whatever it contains and whatever follows, if the lines
      of the chunk can still be counted. */
  lemma {:induction false} QuotedIsRead(s: seq<Byte>, rest: seq<Byte>, line: nat)
    requires line < MAX_INT
    ensures Literal(QUOTE, Escaped(s) + [QUOTE] + rest, line) ==
      if line + Newlines(s) < MAX_INT then Success(Scanned(s, rest, line + Newlines(s)))
        else Failure("chunk has too many lines")
  {
    var ts := Escaped(s) + [QUOTE] + rest;
    if s == [] {
      assert ts == [QUOTE] + rest;
    } else {
      var c, tail := s[0], Escaped(s[1..]) + [QUOTE] + rest;
      var line' := line + if c == NEWLINE then 1 else 0;
      assert ts == Escape(c) + tail;
      assert [c] + s[1..] == s;
      if line' < MAX_INT {
        QuotedIsRead(s[1..], rest, line');
      }
      EscapedStarts(s[1..], rest);
      EscapeIsRead(c, tail, line);
    }
  }

  /** The first string that is not read back: one newline, when the line counter is about to reach its limit. */
  lemma NewlineAtLimit()
    ensures Escaped([NEWLINE]) == [BACKSLASH, NEWLINE]
    ensures Literal(QUOTE, [BACKSLASH, NEWLINE, QUOTE], MAX_INT - 1) == Failure("chunk has too many lines")
    ensures Literal(QUOTE, [BACKSLASH, NEWLINE, QUOTE], MAX_INT - 2) == Success(Scanned([NEWLINE], [], MAX_INT - 1))
  {
    assert [NEWLINE][1..] == [] && Escape(NEWLINE) + [] == Escape(NEWLINE);
    assert Newlines([NEWLINE]) == 1;
    assert Escaped([NEWLINE]) + [QUOTE] + [] == [BACKSLASH, NEWLINE, QUOTE];
    QuotedIsRead([NEWLINE], [], MAX_INT - 1);
    QuotedIsRead([NEWLINE], [], MAX_INT - 2);
  }

  lemma EscapeIsRead(c: Byte, tail: seq<Byte>, line: nat)
    requires tail != [] && tail[0] != RETURN && line < MAX_INT
    ensures Literal(QUOTE, Escape(c) + tail, line) ==
      if c != NEWLINE then Before([c], Literal(QUOTE, tail, line))
      else if line + 1 < MAX_INT then Before([c], Literal(QUOTE, tail, line + 1))
      else Failure("chunk has too many lines")
  {
    var ts := Escape(c) + tail;
    if |Escape(c)| == 1 {
      assert ts[1..] == tail;
    } else {
      assert ts[1..] == Escape(c)[1..] + tail;
      assert ts[1..][1..] == Escape(c)[2..] + tail;
      if c == 0 {
        ZeroIsRead(ts[1..], tail);
      } else {
        assert ts[1..][1..] == tail;
      }
    }
  }

  lemma ZeroIsRead(ts: seq<Byte>, tail: seq<Byte>)
    requires ts == ['0' as int, '0' as int, '0' as int] + tail
    ensures Decimal(ts, 0, 0) == (0, tail)
  {
    assert ts[1..] == ['0' as int, '0' as int] + tail && ts[2..] == ['0' as int] + tail && ts[3..] == tail;
    assert ts[1..][1..] == ts[2..] && ts[2..][1..] == ts[3..];
    assert Decimal(ts[2..], 0, 2) == (0, tail);
    assert Decimal(ts[1..], 0, 1) == (0, tail);
  }

  // ---- the escapes, one by one

  /** What `%q` writes for each byte. */
  lemma EscapesAre(c: Byte)
    ensures Escape(c) ==
      if c == 0x22 || c == 0x5C || c == 0x0A then [0x5C, c]
      else if c == 0x0D then [0x5C, 0x72]
      else if c == 0 then [0x5C, 0x30, 0x30, 0x30]
      else [c]
  {
  }

  /** The letters, by value: bell, backspace, form feed, newline, carriage return, and the two tabs. */
  lemma LetterEscapes(del: Byte, rest: seq<Byte>, line: nat)
    ensures ReadEscape(del, [0x61] + rest, line) == Before([7], Literal(del, rest, line))
    ensures ReadEscape(del, [0x62] + rest, line) == Before([8], Literal(del, rest, line))
    ensures ReadEscape(del, [0x66] + rest, line) == Before([12], Literal(del, rest, line))
    ensures ReadEscape(del, [0x6E] + rest, line) == Before([10], Literal(del, rest, line))
    ensures ReadEscape(del, [0x72] + rest, line) == Before([13], Literal(del, rest, line))
    ensures ReadEscape(del, [0x74] + rest, line) == Before([9], Literal(del, rest, line))
    ensures ReadEscape(del, [0x76] + rest, line) == Before([11], Literal(del, rest, line))
  {
    hide Literal;
    assert forall c: Byte :: ([c] + rest)[1..] == rest;
  }

  predicate IsDecimalDigit(c: Byte) { 0x30 <= c <= 0x39 }

  predicate AreDigits(d: seq<Byte>) {
    1 <= |d| <= 3 && forall i :: 0 <= i < |d| ==> IsDecimalDigit(d[i])
  }

  /** The value of one to three decimal digits. */
  function DecimalValue(d: seq<Byte>): (n: nat)
    requires AreDigits(d)
  {
    if |d| == 1 then DigitValue(d[0]) else if |d| == 2 then 10 * DigitValue(d[0]) + DigitValue(d[1])
    else 100 * DigitValue(d[0]) + 10 * DigitValue(d[1]) + DigitValue(d[2])
  }

  function DigitValue(c: Byte): nat
    requires IsDecimalDigit(c)
  {
    c - 0x30
  }

  /** All the digits are read; a fourth is not. */
  lemma DecimalIs(d: seq<Byte>, rest: seq<Byte>)
    requires AreDigits(d) && (|d| == 3 || rest == [] || !IsDecimalDigit(rest[0]))
    ensures var ts := d + rest; ts[0] == d[0] && Decimal(ts, 0, 0) == (DecimalValue(d), rest)
  {
    hide Decimal;
    var ts := d + rest;
    NextDigit(ts, 0, 0);
    if |d| == 1 {
      assert ts[1..] == rest;
    } else {
      assert ts[1..][0] == d[1] && ts[1..][1..] == ts[2..];
      NextDigit(ts[1..], DigitValue(d[0]), 1);
      if |d| == 2 {
        assert ts[2..] == rest;
      } else {
        assert ts[2..][0] == d[2] && ts[2..][1..] == rest;
        NextDigit(ts[2..], 10 * DigitValue(d[0]) + DigitValue(d[1]), 2);
      }
    }
  }

  /** One, two or three digits are the sum of their values times powers of ten. */
  lemma DecimalEscapes(del: Byte, d: seq<Byte>, rest: seq<Byte>, line: nat)
    requires AreDigits(d) && (|d| == 3 || rest == [] || !IsDecimalDigit(rest[0]))
    ensures var n := DecimalValue(d);
      ReadEscape(del, d + rest, line) ==
        if n <= 255 then Before([n], Literal(del, rest, line)) else Failure("escape sequence too large")
  {
    hide Literal, DecimalValue, Decimal;
    DecimalIs(d, rest);
  }

  /** A newline, in one character or two different ones, stands for a newline and counts as one line. */
  lemma NewlineEscapes(del: Byte, nl: seq<Byte>, rest: seq<Byte>, line: nat)
    requires nl == [0x0A] || nl == [0x0D] || nl == [0x0A, 0x0D] || nl == [0x0D, 0x0A]
    requires |nl| == 1 && rest != [] ==> rest[0] == nl[0] || (rest[0] != 0x0A && rest[0] != 0x0D)
    requires line + 1 < MAX_INT
    ensures ReadEscape(del, nl + rest, line) == Before([0x0A], Literal(del, rest, line + 1))
  {
    hide Literal;
    assert (nl + rest)[|nl|..] == rest;
  }

  /** Any other character stands for itself: in particular the two quotes and the backslash. */
  lemma OtherEscapes(del: Byte, c: Byte, rest: seq<Byte>, line: nat)
    requires !IsDecimalDigit(c) && c !in [0x61, 0x62, 0x66, 0x6E, 0x72, 0x74, 0x76, 0x0A, 0x0D]
    ensures ReadEscape(del, [c] + rest, line) == Before([c], Literal(del, rest, line))
  {
    hide Literal;
    assert ([c] + rest)[1..] == rest;
  }
}
