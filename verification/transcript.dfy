/** The labelled plain-text transcript of captured setup output. */
module Transcripts {
  import opened Basics

  /** `Combined` is for producers that merge both streams themselves. */
  datatype Stream = Stdout | Stderr | Combined

  function StreamName(s: Stream): string
  {
    match s case Stdout => "stdout" case Stderr => "stderr" case Combined => "combined"
  }

  function Label(s: Stream): string { StreamName(s) + " | " }

  datatype Record =
    | Output(invocation: string, stream: Stream, text: string, elided: Option<nat>)
    | Invocation(hook: string, phase: string, hookKey: string, state: string, reason: string, exitCode: Option<int>, signal: string)
    | Capture(condition: string, detail: string)
    | Producer

  const HOOKS := {"initializeCommand", "onCreateCommand", "updateContentCommand",
                  "postCreateCommand", "postStartCommand", "postAttachCommand"}

  const STATES := {"pending", "deferred", "running", "succeeded", "failed", "skipped", "canceled", "completion_unknown"}

  /** What a stored record must satisfy to be read back. The key of a hook is any text. */
  predicate ValidRecord(r: Record)
  {
    r.Invocation? ==> (r.hook == "" || r.hook in HOOKS) && r.state in STATES
  }

  // ----- Control characters -----

  predicate IsControl(c: char) { c < ' ' || '\U{007F}' <= c <= '\U{009F}' }

  function StripControl(s: string): string
  {
    if s == "" then ""
    else if IsControl(s[0]) && s[0] != '\n' && s[0] != '\t' then StripControl(s[1..])
    else [s[0]] + StripControl(s[1..])
  }

  lemma {:induction false} StripDistributes(a: string, b: string)
    ensures StripControl(a + b) == StripControl(a) + StripControl(b)
  {
    if a == "" {
      assert a + b == b;
    } else {
      assert (a + b)[1..] == a[1..] + b;
      StripDistributes(a[1..], b);
    }
  }

  // ----- What one stream's text becomes -----

  /** Each line of `text` behind its label; `mid` says that the line before is still open. */
  function Render(tag: string, text: string, mid: bool): string
  {
    if text == "" then ""
    else (if mid then "" else tag) + [text[0]] + Render(tag, text[1..], text[0] != '\n')
  }

  /** Whether a line is open after `text`. */
  function MidAfter(text: string, mid: bool): bool
  {
    if text == "" then mid else text[|text| - 1] != '\n'
  }

  /** Rendering is a homomorphism, so how text is split into records or pages is invisible. */
  lemma {:induction false} RenderAppends(tag: string, a: string, b: string, mid: bool)
    ensures Render(tag, a + b, mid) == Render(tag, a, mid) + Render(tag, b, MidAfter(a, mid))
    ensures MidAfter(a + b, mid) == MidAfter(b, MidAfter(a, mid))
  {
    if a == "" {
      assert a + b == b;
    } else {
      assert (a + b)[1..] == a[1..] + b;
      RenderAppends(tag, a[1..], b, a[0] != '\n');
      ConcatAssociates((if mid then "" else tag) + [a[0]], Render(tag, a[1..], a[0] != '\n'), Render(tag, b, MidAfter(a, mid)));
    }
  }

  /** Removes a label at the start of every line. */
  function Unlabel(tag: string, s: string, mid: bool): string
    decreases |s|
  {
    if s == "" then ""
    else if !mid && tag <= s then
      if |s| == |tag| then "" else [s[|tag|]] + Unlabel(tag, s[|tag| + 1..], s[|tag|] != '\n')
    else [s[0]] + Unlabel(tag, s[1..], s[0] != '\n')
  }

  lemma UnlabelLine(tag: string, c: char, rest: string)
    ensures Unlabel(tag, tag + [c] + rest, false) == [c] + Unlabel(tag, rest, c != '\n')
  {
    var s := tag + [c] + rest;
    assert tag <= s && s[|tag|] == c && s[|tag| + 1..] == rest;
  }

  /** Removing the labels from what was rendered returns the text. */
  lemma {:induction false} UnlabelRender(tag: string, text: string, mid: bool)
    ensures Unlabel(tag, Render(tag, text, mid), mid) == text
  {
    if text != "" {
      var rest := Render(tag, text[1..], text[0] != '\n');
      UnlabelRender(tag, text[1..], text[0] != '\n');
      if mid {
        assert Render(tag, text, mid) == [text[0]] + rest;
      } else {
        UnlabelLine(tag, text[0], rest);
      }
    }
  }

  /** A line is rendered in one piece. */
  lemma {:induction false} RenderLine(tag: string, line: string, mid: bool)
    requires '\n' !in line
    ensures Render(tag, line, mid) == if line == "" then "" else (if mid then "" else tag) + line
  {
    if line != "" {
      var front := if mid then "" else tag;
      RenderLine(tag, line[1..], true);
      RenderedPiece(front, line, "");
    }
  }

  lemma RenderedPiece(front: string, line: string, end: string)
    requires line != ""
    ensures front + [line[0]] + (line[1..] + end) == front + line + end
    ensures line[1..] == "" ==> front + [line[0]] + end == front + line + end
    ensures end == "" ==> front + [line[0]] + line[1..] == front + line
    ensures end == "" && line[1..] == "" ==> front + [line[0]] + "" == front + line
    ensures "" + line[1..] == line[1..]
  {
    assert line == [line[0]] + line[1..];
  }

  /** So is a line with its newline. */
  lemma {:induction false} RenderClosedLine(tag: string, line: string, mid: bool)
    requires '\n' !in line
    ensures Render(tag, line + "\n", mid) == (if mid then "" else tag) + line + "\n"
  {
    var front := if mid then "" else tag;
    if line == "" {
      assert line + "\n" == "\n" && "\n"[1..] == "";
      assert front + ['\n'] + "" == front + line + "\n";
    } else {
      assert (line + "\n")[0] == line[0] && (line + "\n")[1..] == line[1..] + "\n";
      RenderClosedLine(tag, line[1..], true);
      assert "" + line[1..] + "\n" == line[1..] + "\n";
      RenderedPiece(front, line, "\n");
    }
  }

  /** Rendering up to the first newline, behind what was written before. */
  lemma RenderCut(before: string, tag: string, text: string, i: nat, mid: bool)
    requires i < |text| && text[i] == '\n' && '\n' !in text[..i]
    ensures before + Render(tag, text, mid)
         == Behind(before, tag, mid) + (text[..i] + "\n") + Render(tag, text[i + 1..], false)
    ensures MidAfter(text, mid) == MidAfter(text[i + 1..], false)
  {
    var line, rest, front := text[..i], text[i + 1..], if mid then "" else tag;
    assert text == (line + "\n") + rest;
    RenderClosedLine(tag, line, mid);
    RenderAppends(tag, line + "\n", rest, mid);
    assert front + line + "\n" == front + (line + "\n");
    ConcatAssociates(before, front, line + "\n");
    ConcatAssociates(before, front + (line + "\n"), Render(tag, rest, false));
    assert before + front == Behind(before, tag, mid);
  }

  /** Rendering an open line, behind what was written before. */
  lemma RenderOpen(before: string, tag: string, text: string, mid: bool)
    requires text != "" && '\n' !in text
    ensures before + Render(tag, text, mid) == Behind(before, tag, mid) + text
    ensures MidAfter(text, mid)
  {
    RenderLine(tag, text, mid);
    if !mid { ConcatAssociates(before, tag, text); }
  }

  /** The start of a line needs its label. */
  function Behind(before: string, tag: string, mid: bool): string
  {
    if mid then before else before + tag
  }

  // ----- The writer -----

  function Optional(prefix: string, value: string, suffix: string): string
  {
    if value == "" then "" else prefix + StripControl(value) + suffix
  }

  function Signed(n: int): string { if n < 0 then "-" + Decimal(-n) else Decimal(n) }

  function InvocationLine(r: Record): string
    requires r.Invocation?
  {
    "# " + (if r.hook == "" then r.phase else r.hook)
    + Optional(" (", r.hookKey, ")")
    + ": " + r.state
    + Optional(" ", r.reason, "")
    + (if r.exitCode.Some? then " exit=" + Signed(r.exitCode.value) else "")
    + Optional(" signal=", r.signal, "")
  }

  function Key(r: Record): string
    requires r.Output?
  {
    r.invocation + "/" + StreamName(r.stream)
  }

  function Shown(r: Record): string
    requires r.Output?
  {
    if r.elided.Some? then "[" + Decimal(r.elided.value) + " bytes not retained]\n" else StripControl(r.text)
  }

  /** What has been printed so far and how the current line stands. */
  datatype Sheet = Sheet(out: string, errOut: string, key: string, mid: bool)

  function LineEnded(p: Sheet): Sheet
  {
    if p.mid then p.(out := p.out + "\n", mid := false) else p
  }

  /** The effect of one record. Another stream or an elision starts a new line. */
  function Printed(p: Sheet, r: Record): Sheet
  {
    match r
    case Output(_, stream, _, elided) =>
      var q := if p.key != Key(r) || elided.Some? then LineEnded(p) else p;
      Sheet(q.out + Render(Label(stream), Shown(r), q.mid), q.errOut, Key(r), MidAfter(Shown(r), q.mid))
    case Invocation(_, _, _, _, _, _, _) =>
      var q := LineEnded(p);
      q.(out := q.out + InvocationLine(r) + "\n")
    case Capture(condition, detail) => p.(errOut := p.errOut + "capture: " + condition + " " + detail + "\n")
    case Producer => p
  }

  function PrintedAll(p: Sheet, records: seq<Record>): Sheet
    decreases |records|
  {
    if records == [] then p else PrintedAll(Printed(p, records[0]), records[1..])
  }

  class PlainWriter {
    var out: string
    var errOut: string
    var key: string
    var midLine: bool

    function State(): Sheet
      reads this
    {
      Sheet(out, errOut, key, midLine)
    }

    constructor ()
      ensures State() == Sheet("", "", "", false)
    {
      out, errOut, key, midLine := "", "", "", false;
    }

    method EndLine()
      modifies this
      ensures State() == LineEnded(old(State()))
    {
      if midLine {
        out := out + "\n";
        midLine := false;
      }
    }

    method WriteOutput(r: Record)
      requires r.Output?
      modifies this
      ensures State() == Printed(old(State()), r)
    {
      var newKey := Key(r);
      if midLine && newKey != key { EndLine(); }
      key := newKey;
      var text := StripControl(r.text);
      if r.elided.Some? {
        EndLine();
        text := "[" + Decimal(r.elided.value) + " bytes not retained]\n";
      }
      WriteText(Label(r.stream), text);
    }

    /** Writes text line by line, each line behind the label. */
    method WriteText(tag: string, text: string)
      modifies this`out, this`midLine
      ensures out == old(out) + Render(tag, text, old(midLine)) && midLine == MidAfter(text, old(midLine))
    {
      var rest := text;
      ghost var start, mid := out, midLine;
      while rest != ""
        invariant out + Render(tag, rest, midLine) == start + Render(tag, text, mid)
        invariant MidAfter(rest, midLine) == MidAfter(text, mid)
        decreases |rest|
      {
        ghost var before, open := out, midLine;
        if !midLine {
          out := out + tag;
          midLine := true;
        }
        assert out == Behind(before, tag, open);
        var i := IndexOf(rest, '\n');
        if i == |rest| {
          RenderOpen(before, tag, rest, open);
          out := out + rest;
          return;
        }
        RenderCut(before, tag, rest, i, open);
        out := out + (rest[..i] + "\n");
        midLine, rest := false, rest[i + 1..];
      }
    }

    /** The line of a hook invocation, part by part. */
    method HookLine(r: Record) returns (line: string)
      requires r.Invocation?
      ensures line == InvocationLine(r)
    {
      var name := r.hook;
      if name == "" { name := r.phase; }
      line := "# " + name;
      line := WithPart(line, " (", r.hookKey, ")");
      line := line + ": " + r.state;
      line := WithPart(line, " ", r.reason, "");
      var exit := "";
      if r.exitCode.Some? { exit := " exit=" + Signed(r.exitCode.value); }
      line := line + exit;
      line := WithPart(line, " signal=", r.signal, "");
    }

    method WithPart(line: string, prefix: string, value: string, suffix: string) returns (longer: string)
      ensures longer == line + Optional(prefix, value, suffix)
    {
      longer := line;
      if value != "" {
        longer := line + (prefix + StripControl(value) + suffix);
      } else {
        assert line + "" == line;
      }
    }

    method WriteRecord(r: Record)
      modifies this
      ensures State() == Printed(old(State()), r)
    {
      match r
      case Output(_, _, _, _) => WriteOutput(r);
      case Invocation(_, _, _, _, _, _, _) =>
        EndLine();
        var line := HookLine(r);
        out := out + line + "\n";
      case Capture(condition, detail) =>
        errOut := errOut + "capture: " + condition + " " + detail + "\n";
      case Producer =>
    }

    method WritePage(records: seq<Record>)
      modifies this
      ensures State() == PrintedAll(old(State()), records)
    {
      var i := 0;
      while i < |records|
        invariant 0 <= i <= |records| && PrintedAll(State(), records[i..]) == PrintedAll(old(State()), records)
      {
        WriteRecord(records[i]);
        assert records[i..][1..] == records[i + 1..];
        i := i + 1;
      }
    }
  }

  // ----- What it looks like -----

  /** Of a single character only controls other than newline and tab are dropped. */
  lemma StripOne(c: char)
    ensures StripControl([c]) == if (c < ' ' && c != '\n' && c != '\t') || ('\U{007F}' <= c <= '\U{009F}') then "" else [c]
  {
    assert [c][1..] == "";
  }

  lemma LabelsNameStreams()
    ensures Label(Stdout) == "stdout | " && Label(Stderr) == "stderr | " && Label(Combined) == "combined | "
  {
  }

  /** The parts of a hook's line in their order; a part without a value is left out. */
  lemma HookLineParts(r: Record)
    requires r.Invocation?
    ensures var name := if r.hook == "" then r.phase else r.hook;
            var key := if r.hookKey == "" then "" else " (" + StripControl(r.hookKey) + ")";
            var reason := if r.reason == "" then "" else " " + StripControl(r.reason);
            var exit := match r.exitCode
                        case None => ""
                        case Some(n) => if n < 0 then " exit=" + ("-" + Decimal(-n)) else " exit=" + Decimal(n);
            var signal := if r.signal == "" then "" else " signal=" + StripControl(r.signal);
            InvocationLine(r) == "# " + name + key + ": " + r.state + reason + exit + signal
  {
    NoEnd(" " + StripControl(r.reason));
    NoEnd(" signal=" + StripControl(r.signal));
  }

  lemma NoEnd(s: string)
    ensures s + "" == s
  {
  }

  /** The line of a failed hook. */
  lemma FailedHookLine()
    ensures InvocationLine(Invocation("postCreateCommand", "", "", "failed", "", Some(3), ""))
         == "# " + "postCreateCommand" + ": " + "failed" + (" exit=" + "3")
  {
    HookLineParts(Invocation("postCreateCommand", "", "", "failed", "", Some(3), ""));
    NoEnd("# " + "postCreateCommand");
    NoEnd("# " + "postCreateCommand" + ": " + "failed");
    NoEnd("# " + "postCreateCommand" + ": " + "failed" + (" exit=" + "3"));
    assert Decimal(3) == "3";
  }

  /** A hook ends the open line of the output before it. */
  lemma HookEndsLine(p: Sheet, r: Record, hook: Record)
    requires r.Output? && r.elided.None? && r.text != "" && !p.mid && forall k | 0 <= k < |r.text| :: ' ' <= r.text[k] <= '~'
    requires hook.Invocation?
    ensures PrintedAll(p, [r, hook]).out == p.out + (Label(r.stream) + r.text) + "\n" + InvocationLine(hook) + "\n"
  {
    OutputPrints(p, r);
    PrintingTwo(p, r, hook);
  }

  lemma PrintingTwo(p: Sheet, a: Record, b: Record)
    ensures PrintedAll(p, [a, b]) == Printed(Printed(p, a), b)
  {
    assert PrintedAll(p, [a, b]) == PrintedAll(Printed(p, a), [b]);
    assert PrintedAll(Printed(p, a), [b]) == PrintedAll(Printed(Printed(p, a), b), []);
  }

  /** Plain text at the start of a line. */
  lemma OutputPrints(p: Sheet, r: Record)
    requires r.Output? && r.elided.None? && r.text != "" && !p.mid && forall k | 0 <= k < |r.text| :: ' ' <= r.text[k] <= '~'
    ensures Printed(p, r) == Sheet(p.out + (Label(r.stream) + r.text), p.errOut, r.invocation + "/" + StreamName(r.stream), true)
  {
    PlainText(r.text);
    RenderLine(Label(r.stream), r.text, false);
  }

  /** An elision says how much is missing, on a line of its own behind the label. */
  lemma ElisionPrints(p: Sheet, invocation: string, stream: Stream, text: string, missing: nat)
    ensures var note := "[" + Decimal(missing) + " bytes not retained]" + "\n";
            Printed(p, Output(invocation, stream, text, Some(missing)))
            == Sheet((if p.mid then p.out + "\n" else p.out) + (Label(stream) + note), p.errOut, invocation + "/" + StreamName(stream), false)
  {
    var line := "[" + Decimal(missing) + " bytes not retained]";
    DecimalDenotes(missing);
    assert line + "\n" == "[" + Decimal(missing) + " bytes not retained]\n";
    RenderClosedLine(Label(stream), line, false);
    assert Label(stream) + line + "\n" == Label(stream) + (line + "\n");
  }

  /** Capture notes go to the other output and leave the transcript alone. */
  lemma CapturePrints(p: Sheet, condition: string, detail: string)
    ensures Printed(p, Capture(condition, detail)) == p.(errOut := p.errOut + "capture: " + condition + " " + detail + "\n")
  {
  }

  lemma {:induction false} PlainText(s: string)
    requires forall k | 0 <= k < |s| :: ' ' <= s[k] <= '~'
    ensures StripControl(s) == s
  {
    if s != "" { PlainText(s[1..]); }
  }

  // ----- Splitting is invisible -----

  /** Where the history is cut into pages does not show. */
  lemma {:induction false} PageSplitInvisible(p: Sheet, a: seq<Record>, b: seq<Record>)
    ensures PrintedAll(p, a + b) == PrintedAll(PrintedAll(p, a), b)
    decreases |a|
  {
    if a == [] {
      assert a + b == b;
    } else {
      assert (a + b)[1..] == a[1..] + b;
      PageSplitInvisible(Printed(p, a[0]), a[1..], b);
    }
  }

  /** Nor does where one stream's text is cut into records. */
  lemma RecordSplitInvisible(p: Sheet, invocation: string, stream: Stream, a: string, b: string)
    ensures PrintedAll(p, [Output(invocation, stream, a, None), Output(invocation, stream, b, None)])
         == Printed(p, Output(invocation, stream, a + b, None))
  {
    var first, second := Output(invocation, stream, a, None), Output(invocation, stream, b, None);
    var q := if p.key != Key(first) then LineEnded(p) else p;
    StripDistributes(a, b);
    RenderAppends(Label(stream), StripControl(a), StripControl(b), q.mid);
    ConcatAssociates(q.out, Render(Label(stream), StripControl(a), q.mid),
                     Render(Label(stream), StripControl(b), MidAfter(StripControl(a), q.mid)));
    assert PrintedAll(p, [first, second]) == PrintedAll(Printed(p, first), [second]);
    assert PrintedAll(Printed(p, first), [second]) == Printed(Printed(p, first), second);
  }

  /** The text that a run of records carries. */
  function Text(records: seq<Record>): string
  {
    if records == [] then ""
    else (if records[0].Output? then records[0].text else "") + Text(records[1..])
  }

  predicate OneStream(records: seq<Record>, invocation: string, stream: Stream)
  {
    forall r | r in records :: r.Output? && r.invocation == invocation && r.stream == stream && r.elided.None?
  }

  /** A run of records of one stream prints like one record holding all its text. */
  lemma {:induction false} RunPrintsAsOne(p: Sheet, records: seq<Record>, invocation: string, stream: Stream)
    requires OneStream(records, invocation, stream) && records != []
    ensures PrintedAll(p, records) == Printed(p, Output(invocation, stream, Text(records), None))
    decreases |records|
  {
    var first := records[0];
    if |records| == 1 {
      assert records == [first] && Text(records) == first.text + "" == first.text;
      assert PrintedAll(p, records) == PrintedAll(Printed(p, first), []);
    } else {
      RunPrintsAsOne(Printed(p, first), records[1..], invocation, stream);
      var second := Output(invocation, stream, Text(records[1..]), None);
      RecordSplitInvisible(p, invocation, stream, first.text, second.text);
      assert PrintedAll(p, [first, second]) == PrintedAll(Printed(p, first), [second]);
      assert PrintedAll(Printed(p, first), [second]) == Printed(Printed(p, first), second);
    }
  }

  /** Removing the labels from the transcript of one stream gives its text without control characters. */
  lemma TranscriptRoundTrip(records: seq<Record>, invocation: string, stream: Stream)
    requires OneStream(records, invocation, stream)
    ensures Unlabel(Label(stream), PrintedAll(Sheet("", "", "", false), records).out, false) == StripControl(Text(records))
  {
    if records != [] {
      RunPrintsAsOne(Sheet("", "", "", false), records, invocation, stream);
      UnlabelRender(Label(stream), StripControl(Text(records)), false);
      assert "" + Render(Label(stream), StripControl(Text(records)), false) == Render(Label(stream), StripControl(Text(records)), false);
    }
  }
}
