/** What is written is read back, whatever the division of the bytes into chunks. */
module LuaRoundTrips {
  import opened LuaResults
  import opened LuaPatterns
  import opened LuaZio
  import opened LuaQuote
  import opened LuaChunk
  import opened LuaChunkRoundTrip
  import opened LuaDump
  import opened LuaUndump

  /** How a reader may divide bytes into chunks. */
  type Division = seq<Byte> -> seq<seq<Byte>>

  ghost predicate Divides(cut: Division) {
    forall b :: Joined(cut(b)) == b
  }

  /** A string, quoted by `%q`, is what the lexer reads from a stream that goes on with `rest`. */
  method QuoteThenRead(s: seq<Byte>, rest: seq<Byte>, cut: Division) returns (r: Result<seq<Byte>>, lexer: Lexer)
    requires Divides(cut)
    ensures r == if 1 + Newlines(s) < MAX_INT then Success(s) else Failure("chunk has too many lines")
    ensures r.Success? ==> lexer.Valid() && lexer.Input() == rest && lexer.linenumber == 1 + Newlines(s)
  {
    hide Escaped, Literal;
    var quoted := AddQuoted(s);
    var z := new Zio(cut(quoted + rest));
    lexer := new Lexer(z);
    assert lexer.Input() == quoted + rest && lexer.Input()[1..] == Escaped(s) + [QUOTE] + rest;
    QuotedIsRead(s, rest, 1);
    r := lexer.ReadString();
  }

  /** A function is dumped through a writer, and what the writer got is loaded from a stream that goes on with
      `rest`. A writer that never fails makes the function come back; stripping loses the sources and the debug
      information. If the writer fails, its answer is the status. */
  method DumpThenLoad(m: Machine, check: Checker, f: Proto, writer: Writer, strip: bool, rest: seq<Byte>,
      cut: Division, level: nat)
    returns (status: int, r: Result<Proto>, z: Zio)
    requires Fits(m, f) && HasSources(f) && Accepted(check, if strip then Stripped(f) else f) && Divides(cut)
    ensures (forall w, b :: writer(w, b) == 0) ==> status == 0
    ensures status == 0 ==>
      r == if Height(f) <= RoomAt(level) then Success(if strip then Stripped(f) else f) else Failure("code too deep")
    ensures status == 0 && r.Success? ==> z.Valid() && z.Content() == rest
    ensures status != 0 ==> exists w, b :: w + b <= DumpedChunk(m, f, strip) && status == writer(w, b)
    ensures status != 0 ==> r == Failure("dump failed")
  {
    hide Fits, HasSources, Accepted, LoadedChunk, DumpedChunk, Stripped, Height, Wrote;
    var chunk;
    status, chunk := UDump(m, f, writer, strip);
    z := new Zio(cut(chunk + rest));
    if status != 0 {
      return status, Failure("dump failed"), z;
    }
    ChunkIs(m, check, f, strip, rest, level);
    r := UUndump(m, check, z, level);
  }
}
