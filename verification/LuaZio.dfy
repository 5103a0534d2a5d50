/** The input stream (lzio.c): a reader gives the bytes in chunks, and what is read does not depend on
    where one chunk ends and the next begins. */
module LuaZio {
  import opened LuaPatterns

  const EOZ: int := -1

  /** The bytes of the chunks. An empty one is the end of the stream. */
  function Joined(chunks: seq<seq<Byte>>): seq<Byte> {
    if chunks == [] || chunks[0] == [] then [] else chunks[0] + Joined(chunks[1..])
  }

  /** `chunks` is what the reader has still to give; once it has signalled the end it goes on doing so. */
  class Zio {
    var chunks: seq<seq<Byte>>
    var buffer: seq<Byte>
    var p: nat
    var n: int

    /** `n` bytes are left at `p`. It is false after the end has been read byte by byte: the counter has
        been decremented below zero then, and the stream must not be used again. */
    ghost predicate Valid()
      reads this
    {
      p <= |buffer| && n == |buffer| - p
    }

    ghost function Content(): seq<Byte>
      requires Valid()
      reads this
    {
      buffer[p..] + Joined(chunks)
    }

    constructor (chunks: seq<seq<Byte>>)
      ensures Valid() && Content() == Joined(chunks)
    {
      this.chunks, buffer, p, n := chunks, [], 0, 0;
    }

    /** `luaZ_fill`. */
    method Fill() returns (c: int)
      requires p == |buffer|
      modifies this
      ensures Joined(old(chunks)) == [] ==> c == EOZ && unchanged(this)
      ensures Joined(old(chunks)) != [] ==>
        Valid() && 0 < p && c == Joined(old(chunks))[0] == buffer[p - 1] && Content() == Joined(old(chunks))[1..]
    {
      if chunks == [] || chunks[0] == [] {
        return EOZ;
      }
      assert chunks[0][1..] + Joined(chunks[1..]) == (chunks[0] + Joined(chunks[1..]))[1..];
      buffer, chunks := chunks[0], chunks[1..];
      n, p := |buffer| - 1, 1;
      return buffer[0];
    }

    /** `zgetc`. */
    method GetC() returns (c: int)
      requires Valid()
      modifies this
      ensures old(Content()) == [] ==> c == EOZ
      ensures old(Content()) != [] ==> Valid() && c == old(Content())[0] && Content() == old(Content())[1..]
    {
      n := n - 1;
      if n >= 0 {
        p := p + 1;
        c := buffer[p - 1];
        assert buffer[p - 1..] == [c] + buffer[p..];
      } else {
        assert buffer[p..] == [];
        c := Fill();
      }
    }

    /** `luaZ_lookahead`. */
    method Lookahead() returns (c: int)
      requires Valid()
      modifies this
      ensures Valid() && Content() == old(Content())
      ensures if Content() == [] then c == EOZ else c == Content()[0] && n > 0
    {
      if n == 0 {
        assert buffer[p..] == [];
        c := Fill();
        if c == EOZ {
          return;
        }
        n := n + 1;
        p := p - 1;
        assert buffer[p..] == [c as Byte] + buffer[p + 1..];
      }
      return buffer[p];
    }

    /** Takes `m` bytes of the current chunk. */
    method Take(m: nat) returns (b: seq<Byte>)
      requires Valid() && m <= n
      modifies this`n, this`p
      ensures Valid() && old(Content()) == b + Content() && |b| == m
    {
      b := buffer[p..p + m];
      assert buffer[p..] + Joined(chunks) == b + (buffer[p + m..] + Joined(chunks));
      n, p := n - m, p + m;
    }

    /** `luaZ_read`: the block as far as there is one, and the number of missing bytes. */
    method Read(count: nat) returns (missing: nat, b: seq<Byte>)
      requires Valid()
      modifies this
      ensures Valid() && |b| + missing == count && old(Content()) == b + Content()
      ensures missing > 0 ==> Content() == []
    {
      hide Joined;
      missing, b := count, [];
      assert [] + Content() == Content();
      while missing > 0
        invariant Valid() && |b| + missing == count && old(Content()) == b + Content()
        decreases missing
      {
        var c := Lookahead();
        if c == EOZ {
          return;
        }
        var m := if missing <= n then missing else n;
        ghost var before := b;
        var more := Take(m);
        assert before + (more + Content()) == (before + more) + Content();
        b := b + more;
        missing := missing - m;
      }
    }
  }
}
