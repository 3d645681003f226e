/** minstd's buffered reader over a connection that hands out its bytes in pieces of its own
    choosing. */
module MinBufio {
  import opened Common

  datatype IoError = Eof | UnexpectedEof | Other(code: int)

  /** As much of s as fits. */
  method CopyOut(s: string, p: array<char>) returns (n: nat)
    modifies p
    ensures n == if |s| < p.Length then |s| else p.Length
    ensures p[..n] == s[..n]
  {
    n := if |s| < p.Length then |s| else p.Length;
    for i := 0 to n
      invariant forall k :: 0 <= k < i ==> p[k] == s[k]
    {
      p[i] := s[i];
    }
  }

  /** The peer's bytes, in the pieces in which reads will see them (never empty, but cut
      short by small buffers), and what reads return after the last one. */
  class Conn {
    var chunks: seq<string>
    const final: Option<IoError>

    ghost predicate Valid()
      reads this
    {
      forall k :: 0 <= k < |chunks| ==> chunks[k] != ""
    }

    constructor (chunks: seq<string>, final: Option<IoError>)
      requires forall k :: 0 <= k < |chunks| ==> chunks[k] != ""
      ensures Valid() && this.chunks == chunks && this.final == final
    {
      this.chunks, this.final := chunks, final;
    }

    /** With bytes comes any error or none; without bytes, what the connection ended with. */
    method Read(buf: array<char>) returns (n: nat, err: Option<IoError>)
      requires Valid() && buf.Length > 0
      modifies this, buf
      ensures Valid() && n <= buf.Length
      ensures buf[..n] + Concat(chunks) == old(Concat(chunks))
      ensures n == 0 ==> old(chunks) == [] && err == final
      ensures |Concat(chunks)| <= old(|Concat(chunks)|) - n
    {
      if chunks == [] {
        return 0, final;
      }
      var first, others := chunks[0], chunks[1..];
      n := CopyOut(first, buf);
      if n < |first| {
        chunks := [first[n..]] + others;
        assert chunks[1..] == others;
        assert first[..n] + (first[n..] + Concat(others)) == first + Concat(others);
      } else {
        chunks := others;
        assert first[..n] == first;
      }
      err := *;
    }
  }

  /** The first line of a stream, with its end mark if it has one, and what follows. */
  function NextLine(p: string, delim: char): (r: (string, string, bool))
    ensures r.0 + r.1 == p
    ensures r.2 <==> delim in p
    ensures if r.2 then r.0 != "" else r.1 == ""
  {
    if p == "" then ("", "", false)
    else if p[0] == delim then ([p[0]], p[1..], true)
    else
      var (line, rest, ok) := NextLine(p[1..], delim);
      ([p[0]] + line, rest, ok)
  }

  lemma {:induction false} LineEnds(p: string, delim: char)
    requires delim in p
    ensures var line := NextLine(p, delim).0;
            line[|line| - 1] == delim && delim !in line[..|line| - 1]
  {
    if p[0] != delim {
      LineEnds(p[1..], delim);
      var tail := NextLine(p[1..], delim).0;
      assert ([p[0]] + tail)[..|tail|] == [p[0]] + tail[..|tail| - 1];
    }
  }

  class Reader {
    const src: Conn
    const buf: array<char>
    var off: nat
    var end: nat

    ghost predicate Valid()
      reads this, src
    {
      src.Valid() && buf.Length == 4096 && off <= end <= buf.Length
    }

    /** What has arrived and was not yet read, then what has not arrived yet. */
    ghost function Pending(): string
      reads this, src, buf
      requires Valid()
    {
      buf[off..end] + Concat(src.chunks)
    }

    constructor (src: Conn)
      requires src.Valid()
      ensures Valid() && this.src == src && fresh(buf)
      ensures Pending() == Concat(src.chunks)
    {
      this.src := src;
      buf := new char[4096](_ => ' ');
      off, end := 0, 0;
    }

    /** Replaces the used-up buffer by the next bytes of the connection. */
    method Refill() returns (n: nat, err: Option<IoError>)
      requires Valid() && off >= end
      modifies this`off, this`end, src, buf
      ensures Valid() && n == end - off
      ensures Pending() == old(Pending())
      ensures n == 0 ==> Pending() == "" && err == src.final
    {
      assert buf[off..end] == "";
      n, err := src.Read(buf);
      off, end := 0, n;
      assert buf[off..end] == buf[..n];
    }

    method Read(p: array<char>) returns (n: nat, err: Option<IoError>)
      requires Valid() && p != buf
      modifies this, src, buf, p
      ensures Valid() && n <= p.Length
      ensures p[..n] + Pending() == old(Pending())
      ensures n == 0 ==> if p.Length == 0 then err == None else old(Pending()) == "" && err == src.final
      ensures n > 0 ==> err == None
      ensures p.Length > 0 && old(Pending()) != "" ==> n > 0
    {
      if p.Length == 0 {
        assert p[..0] + Pending() == Pending();
        return 0, None;
      }
      if off >= end {
        n, err := Refill();
        if n == 0 {
          assert p[..0] + Pending() == Pending();
          return 0, err;
        }
      }
      var ready := buf[off..end];
      n := CopyOut(ready, p);
      assert ready == ready[..n] + ready[n..] && buf[off + n..end] == ready[n..];
      off := off + n;
      err := None;
    }

    /** The line is the stream's next line, however the connection split the bytes. */
    method ReadString(delim: char) returns (line: string, err: Option<IoError>)
      requires Valid()
      modifies this, src, buf
      ensures Valid()
      ensures var (l, rest, ok) := NextLine(old(Pending()), delim);
              && line == l && Pending() == rest
              && err == if ok then None else Some(if src.final.Some? then src.final.value else Eof)
    {
      hide NextLine;
      ghost var whole := Pending();
      line := "";
      while true
        invariant Valid() && delim !in line
        invariant line + Pending() == whole
        decreases |Pending()|
      {
        if off >= end {
          var n, e := Refill();
          if n == 0 {
            assert line == whole;
            LineMissing(whole, delim);
            return line, Some(if e.Some? then e.value else Eof);
          }
        }
        var found := ScanBuffer(delim);
        assert line + (found.0 + Pending()) == (line + found.0) + Pending();
        line := line + found.0;
        if found.1 {
          LineFound(whole, line, Pending(), delim);
          return line, None;
        }
      }
    }

    /** The inner loop: bytes from the buffer up to the delimiter or the buffer's end. */
    method ScanBuffer(delim: char) returns (r: (string, bool))
      requires Valid() && off < end
      modifies this`off
      ensures Valid() && r.0 + Pending() == old(Pending())
      ensures r.0 != "" && delim !in r.0[..|r.0| - 1]
      ensures r.1 <==> r.0[|r.0| - 1] == delim
      ensures !r.1 ==> off == end
    {
      var out := "";
      while off < end
        invariant old(off) <= off <= end && out == buf[old(off)..off]
        invariant delim !in out && (off == old(off) ==> out == "")
      {
        var c := buf[off];
        off := off + 1;
        out := out + [c];
        assert buf[old(off)..off] == out;
        if c == delim {
          assert buf[old(off)..end] == out + buf[off..end];
          return (out, true);
        }
      }
      assert buf[old(off)..end] == out + buf[off..end];
      return (out, false);
    }
  }

  lemma {:induction false} LineMissing(whole: string, delim: char)
    requires delim !in whole
    ensures NextLine(whole, delim) == (whole, "", false)
  {
    if whole != "" {
      assert whole == [whole[0]] + whole[1..];
      LineMissing(whole[1..], delim);
    }
  }

  lemma {:induction false} LineFound(whole: string, line: string, rest: string, delim: char)
    requires whole == line + rest && line != "" && line[|line| - 1] == delim && delim !in line[..|line| - 1]
    ensures NextLine(whole, delim) == (line, rest, true)
    decreases |line|
  {
    if |line| > 1 {
      assert line[0] in line[..|line| - 1];
      assert whole[1..] == line[1..] + rest;
      assert line[1..][..|line[1..]| - 1] == line[..|line| - 1][1..];
      LineFound(whole[1..], line[1..], rest, delim);
      assert whole[0] == line[0] && line == [line[0]] + line[1..];
    } else {
      assert whole[1..] == rest && line == [whole[0]];
    }
  }
}
