/** Streaming a detached worker's captured output line by line. Bytes are modelled as characters. */
module LogTailers {
  import opened Basics

  const MAX_READ := 32768

  /** The complete lines of a stream, without their newlines. */
  function Lines(s: string): seq<string>
    decreases |s|
  {
    var i := IndexOf(s, '\n');
    if i == |s| then [] else [s[..i]] + Lines(s[i + 1..])
  }

  /** What follows the last newline. */
  function Partial(s: string): string
    decreases |s|
  {
    var i := IndexOf(s, '\n');
    if i == |s| then s else Partial(s[i + 1..])
  }

  function Unlines(lines: seq<string>): string
  {
    if lines == [] then "" else lines[0] + "\n" + Unlines(lines[1..])
  }

  /** Lines and the pending remainder lose nothing, and the remainder never holds a newline. */
  lemma {:induction false} LinesRebuild(s: string)
    ensures Unlines(Lines(s)) + Partial(s) == s
    ensures '\n' !in Partial(s)
    ensures forall l :: l in Lines(s) ==> '\n' !in l
    decreases |s|
  {
    var i := IndexOf(s, '\n');
    if i < |s| {
      CutJoins(s, '\n');
      LinesRebuild(s[i + 1..]);
    }
  }

  lemma IndexInPrefix(a: string, b: string)
    requires '\n' in a
    ensures IndexOf(a + b, '\n') == IndexOf(a, '\n')
  {
    var i := IndexOf(a, '\n');
    assert (a + b)[..i] == a[..i];
    IndexIsFirst(a + b, '\n', i);
  }

  /** Splitting may resume from the pending remainder alone. */
  lemma {:induction false} LinesOfAppend(a: string, b: string)
    ensures Lines(a + b) == Lines(a) + Lines(Partial(a) + b)
    ensures Partial(a + b) == Partial(Partial(a) + b)
    decreases |a|
  {
    var i := IndexOf(a, '\n');
    if i < |a| {
      IndexInPrefix(a, b);
      assert (a + b)[..i] == a[..i];
      assert (a + b)[i + 1..] == a[i + 1..] + b;
      LinesOfAppend(a[i + 1..], b);
      ConcatAssociates([a[..i]], Lines(a[i + 1..]), Lines(Partial(a) + b));
    } else {
      assert Partial(a) == a && Lines(a) == [];
    }
  }

  datatype Routed = Printed(line: string) | Status(line: string) | Dropped(line: string)

  /** The lines of a finished stream: a trailing partial line counts. */
  function AllLines(s: string): seq<string>
  {
    if Partial(s) == "" then Lines(s) else Lines(s) + [Partial(s)]
  }

  /** The stream with its last line ended. */
  function Closed(s: string): string
  {
    if s == "" || s[|s| - 1] == '\n' then s else s + "\n"
  }

  /** The lines that were routed, wherever they went. */
  function Texts(out: seq<Routed>): seq<string>
  {
    seq(|out|, i requires 0 <= i < |out| => out[i].line)
  }

  /** Nothing follows the last newline. */
  lemma {:induction false} PartialIsEmptyIff(s: string)
    ensures Partial(s) == "" <==> s == "" || s[|s| - 1] == '\n'
    decreases |s|
  {
    var i := IndexOf(s, '\n');
    if i < |s| {
      PartialIsEmptyIff(s[i + 1..]);
      assert s[i + 1..] != "" ==> s[i + 1..][|s[i + 1..]| - 1] == s[|s| - 1];
    } else {
      assert s != "" ==> s[|s| - 1] in s;
    }
  }

  lemma {:induction false} UnlinesAppends(a: seq<string>, b: seq<string>)
    ensures Unlines(a + b) == Unlines(a) + Unlines(b)
  {
    if a == [] {
      assert a + b == b;
    } else {
      assert (a + b)[1..] == a[1..] + b;
      UnlinesAppends(a[1..], b);
      ConcatAssociates(a[0] + "\n", Unlines(a[1..]), Unlines(b));
    }
  }

  lemma AllLinesJoin(s: string)
    ensures Unlines(AllLines(s)) == Closed(s)
  {
    LinesRebuild(s);
    PartialIsEmptyIff(s);
    if Partial(s) != "" {
      LastLineJoins(Lines(s), Partial(s));
    }
  }

  lemma LastLineJoins(lines: seq<string>, last: string)
    ensures Unlines(lines + [last]) == Unlines(lines) + last + "\n"
  {
    UnlinesAppends(lines, [last]);
    assert Unlines([last]) == last + "\n" + Unlines([]);
    assert last + "\n" + "" == last + "\n";
    ConcatAssociates(Unlines(lines), last, "\n");
  }

  class LogTailer {
    /** How a line is recognised; any classification. */
    const isStatus: string -> bool
    const isEnvelope: string -> bool
    const statusOut: bool

    var path: string
    var isOpen: bool
    var offset: nat
    var buf: string
    var out: seq<Routed>
    /** Everything read so far, and how many reads failed. */
    ghost var seen: string
    ghost var faults: nat

    /** The destination of a line: exactly one. */
    function Route(line: string): Routed
    {
      if statusOut && isStatus(line) then Status(line)
      else if isEnvelope(line) then Dropped(line)
      else Printed(line)
    }

    function RouteAll(lines: seq<string>): seq<Routed>
    {
      seq(|lines|, i requires 0 <= i < |lines| => Route(lines[i]))
    }

    /** Status lines of an agent go one way, envelopes are dropped, and everything else is printed. */
    ghost predicate RoutedRight(r: Routed)
    {
      match r
      case Status(line) => statusOut && isStatus(line)
      case Dropped(line) => !(statusOut && isStatus(line)) && isEnvelope(line)
      case Printed(line) => !(statusOut && isStatus(line)) && !isEnvelope(line)
    }

    lemma RouteAllIsRight(lines: seq<string>)
      ensures forall r | r in RouteAll(lines) :: RoutedRight(r)
      ensures Texts(RouteAll(lines)) == lines
    {
    }

    /** Every line of `text`, ended by its newline, has gone where it belongs, in order. */
    ghost predicate Delivered(text: string)
      reads this
    {
      Unlines(Texts(out)) == text && forall r | r in out :: RoutedRight(r)
    }

    lemma StreamingDelivers()
      requires Streaming()
      ensures exists done :: Delivered(done) && done + buf == seen
    {
      RouteAllIsRight(Lines(seen));
      LinesRebuild(seen);
      assert Delivered(Unlines(Lines(seen)));
    }

    /** A line that the end of the stream cut off counts as complete. */
    lemma FlushedDelivers()
      requires Flushed()
      ensures Delivered(Closed(seen))
    {
      RouteAllIsRight(AllLines(seen));
      AllLinesJoin(seen);
    }

    lemma RouteAllAppends(a: seq<string>, b: seq<string>)
      ensures RouteAll(a + b) == RouteAll(a) + RouteAll(b)
    {
    }

    /** Nothing depends on how the stream was cut into reads and polls. */
    ghost predicate Streaming()
      reads this
    {
      offset == |seen| && buf == Partial(seen) && out == RouteAll(Lines(seen))
    }

    /** The stream has ended: every line has been routed, and nothing will be routed again. */
    ghost predicate Flushed()
      reads this
    {
      path == "" && buf == "" && out == RouteAll(AllLines(seen))
    }

    constructor (path: string, statusOut: bool, isStatus: string -> bool, isEnvelope: string -> bool)
      ensures Streaming() && seen == "" && this.path == path && !isOpen
    {
      this.path, this.statusOut, this.isStatus, this.isEnvelope := path, statusOut, isStatus, isEnvelope;
      isOpen, offset, buf, out, seen, faults := false, 0, "", [], "", 0;
    }

    method WriteLine(line: string)
      modifies this`out
      ensures out == old(out) + [Route(line)]
    {
      if statusOut && isStatus(line) {
        out := out + [Status(line)];
        return;
      }
      if isEnvelope(line) {
        out := out + [Dropped(line)];
        return;
      }
      out := out + [Printed(line)];
    }

    method Emit(chunk: string)
      modifies this`buf, this`out
      ensures buf == Partial(old(buf) + chunk)
      ensures out == old(out) + RouteAll(Lines(old(buf) + chunk))
    {
      buf := buf + chunk;
      ghost var pending, done := buf, [];
      while true
        invariant Partial(buf) == Partial(pending) && Lines(pending) == done + Lines(buf)
        invariant out == old(out) + RouteAll(done)
        decreases |buf|
      {
        var i := IndexOf(buf, '\n');
        if i == |buf| {
          assert done + [] == done;
          return;
        }
        var line := buf[..i];
        buf := buf[i + 1..];
        WriteLine(line);
        ConcatAssociates(done, [line], Lines(buf));
        ghost var before := done;
        done := done + [line];
        RouteAllAppends(before, [line]);
      }
    }

    /** One read: the bytes join the stream and its newly completed lines are routed. */
    method Consume(chunk: string)
      requires Streaming()
      modifies this`buf, this`out, this`offset, this`seen
      ensures Streaming() && seen == old(seen) + chunk
    {
      ghost var before := seen;
      Emit(chunk);
      LinesOfAppend(before, chunk);
      RouteAllAppends(Lines(before), Lines(Partial(before) + chunk));
      seen := seen + chunk;
      offset := offset + |chunk|;
    }

    /** How many bytes one read returns: any number up to the buffer and what is there. */
    method ReadSize(available: nat) returns (n: nat)
      requires available > 0
      ensures 0 < n <= available && n <= MAX_READ
    {
      n := *;
      if n <= 0 || n > available || n > MAX_READ { n := 1; }
    }

    method ReadRest(file: string) returns (failed: bool)
      requires Streaming() && seen <= file
      modifies this`buf, this`out, this`offset, this`seen, this`faults
      ensures Streaming() && old(seen) <= seen <= file && (!failed ==> seen == file)
      ensures failed <==> faults > old(faults)
      ensures faults >= old(faults)
    {
      while offset < |file|
        invariant Streaming() && old(seen) <= seen <= file && faults == old(faults)
        decreases |file| - offset
      {
        failed := *;
        if failed {
          faults := faults + 1;
          return;
        }
        var n := ReadSize(|file| - offset);
        assert seen + file[offset..offset + n] == file[..offset + n];
        Consume(file[offset..offset + n]);
        failed := *;
        if failed {
          faults := faults + 1;
          return;
        }
      }
      failed := false;
    }

    /**
     Reads what was appended to `file` since the last call. The file may be missing; any read may
     return any number of bytes and may fail. Without a failure everything present is consumed.
     */
    method Poll(file: string, present: bool) returns (failed: bool)
      requires seen <= file && (Streaming() || Flushed())
      modifies this`isOpen, this`buf, this`out, this`offset, this`seen, this`faults
      ensures failed <==> path != "" && ((!old(isOpen) && !present) || faults > old(faults))
      ensures faults >= old(faults)
      ensures old(seen) <= seen <= file && (old(Streaming()) ==> Streaming())
      ensures path == "" ==> seen == old(seen) && out == old(out) && buf == old(buf)
      ensures !failed && path != "" ==> seen == file
      ensures Streaming() ==> exists done :: Delivered(done) && done + buf == seen
    {
      if Streaming() { StreamingDelivers(); }
      if path == "" { return false; }
      if !isOpen {
        if !present { return true; }
        isOpen := true;
      }
      failed := ReadRest(file);
      if Streaming() { StreamingDelivers(); }
    }

    method Flush(file: string, present: bool) returns (failed: bool)
      requires seen <= file && (Streaming() || Flushed())
      modifies this
      ensures Flushed() && old(seen) <= seen <= file
      ensures !failed && old(path) != "" ==> seen == file
      ensures failed <==> old(path) != "" && ((!old(isOpen) && !present) || faults > old(faults))
      ensures old(Flushed()) ==> out == old(out)
      ensures Delivered(Closed(seen))
    {
      failed := Poll(file, present);
      path := "";
      if |buf| > 0 {
        WriteLine(buf);
        RouteAllAppends(Lines(seen), [Partial(seen)]);
        buf := "";
      }
      isOpen := false;
      FlushedDelivers();
    }
  }
}
