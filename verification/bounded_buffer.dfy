/** The tail-retaining output buffer of the MCP tools. Bytes are modelled as characters. */
module BoundedBuffers {
  import opened Basics

  const MIN_CAPACITY := 64

  /** The last `n` bytes of a stream, or all of it. */
  function Tail(s: string, n: nat): (t: string)
    ensures |t| == if |s| <= n then |s| else n
  {
    if |s| <= n then s else s[|s| - n..]
  }

  /** The three ways a write keeps the tail. */
  lemma TailAfterWrite(s: string, p: string, n: nat)
    ensures var buf := Tail(s, n);
            Tail(s + p, n) == if |p| >= n then p[|p| - n..] else if |buf| + |p| > n then buf[|buf| + |p| - n..] + p else buf + p
  {
    TailOfAppend(s, p, n);
    var buf := Tail(s, n);
    var joined := buf + p;
    if |p| >= n {
      assert joined[|joined| - n..] == p[|p| - n..];
      assert |p| == n && buf == "" ==> joined == p == p[0..];
    } else if |joined| > n {
      assert joined[|joined| - n..] == buf[|joined| - n..] + p;
    }
  }

  function Concat(chunks: seq<string>): string
  {
    if chunks == [] then "" else Concat(chunks[..|chunks| - 1]) + chunks[|chunks| - 1]
  }

  lemma TailOfAppend(s: string, p: string, n: nat)
    ensures Tail(Tail(s, n) + p, n) == Tail(s + p, n)
  {
  }

  /** What a reader is shown of a whole stream. */
  function Shown(stream: string, cap: nat): string
  {
    if |stream| <= cap then stream
    else "... [" + Decimal(|stream| - cap) + " bytes dropped] ...\n" + Tail(stream, cap)
  }

  /** Behind a note with the number of bytes that are missing, exactly the last `cap` bytes. */
  ghost predicate ShowsTail(s: string, stream: string, cap: nat)
    requires cap <= |stream|
  {
    exists digits :: Digits(digits) && Denoted(digits) == |stream| - cap
                     && s == "... [" + digits + " bytes dropped] ...\n" + stream[|stream| - cap..]
  }

  lemma DroppedAreCounted(stream: string, cap: nat)
    ensures |stream| > cap ==> ShowsTail(Shown(stream, cap), stream, cap)
  {
    if |stream| > cap { DecimalDenotes(|stream| - cap); }
  }

  class BoundedBuffer {
    const cap: nat
    var buf: string
    var written: nat
    /** Everything written so far. */
    ghost var stream: string

    ghost predicate Valid()
      reads this
    {
      cap >= MIN_CAPACITY && written == |stream| && buf == Tail(stream, cap)
    }

    constructor (capacity: int)
      ensures Valid() && stream == "" && cap == if capacity < MIN_CAPACITY then MIN_CAPACITY else capacity
    {
      cap := if capacity < MIN_CAPACITY then MIN_CAPACITY else capacity;
      buf, written, stream := "", 0, "";
    }

    method Write(p: string) returns (n: nat)
      requires Valid()
      modifies this
      ensures Valid() && stream == old(stream) + p && n == |p|
    {
      TailAfterWrite(stream, p, cap);
      stream := stream + p;
      ghost var kept := Tail(stream, cap);
      n := |p|;
      written := written + n;
      if |p| >= cap {
        buf := p[|p| - cap..];
        assert buf == kept;
        return;
      }
      if |buf| + |p| > cap {
        var drop := |buf| + |p| - cap;
        buf := buf[drop..];
      }
      buf := buf + p;
      assert buf == kept;
    }

    function Truncated(): (t: bool)
      requires Valid()
      reads this
      ensures t <==> |stream| > cap
    {
      written > cap
    }

    /** The dropped count is the total minus what is retained. */
    function String(): (s: string)
      requires Valid()
      reads this
      ensures s == Shown(stream, cap)
      ensures |stream| <= cap ==> s == stream
      ensures |stream| > cap ==> ShowsTail(s, stream, cap)
    {
      DroppedAreCounted(stream, cap);
      if !Truncated() then buf
      else "... [" + Decimal(written - |buf|) + " bytes dropped] ...\n" + buf
    }
  }

  /** However a stream is cut into writes, the buffer ends up showing the same. */
  method WriteAll(b: BoundedBuffer, chunks: seq<string>)
    requires b.Valid() && b.stream == ""
    modifies b
    ensures b.Valid() && b.stream == Concat(chunks) && b.String() == Shown(Concat(chunks), b.cap)
  {
    var i := 0;
    while i < |chunks|
      invariant 0 <= i <= |chunks| && b.Valid() && b.stream == Concat(chunks[..i])
    {
      var _ := b.Write(chunks[i]);
      i := i + 1;
      assert chunks[..i][..i - 1] == chunks[..i - 1];
    }
    assert chunks[..i] == chunks;
  }

  /** Retaining the tail after every write, as the buffer does. */
  function Retained(chunks: seq<string>, cap: nat): string
  {
    if chunks == [] then ""
    else Tail(Retained(chunks[..|chunks| - 1], cap) + chunks[|chunks| - 1], cap)
  }

  /** Chunking is invisible: what is retained on the way is the tail of all that was written. */
  lemma {:induction false} ChunksDoNotMatter(chunks: seq<string>, cap: nat)
    ensures Retained(chunks, cap) == Tail(Concat(chunks), cap)
  {
    if chunks != [] {
      var n := |chunks| - 1;
      ChunksDoNotMatter(chunks[..n], cap);
      TailOfAppend(Concat(chunks[..n]), chunks[n], cap);
    }
  }
}
