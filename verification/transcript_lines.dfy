/** The lines of a transcript, and which stream or hook each of them belongs to. */
module TranscriptLines {
  import opened Basics
  import opened Transcripts
  import LogTailers

  datatype Source = FromStream(stream: Stream) | FromHook

  /** A line still waits for its newline, got it from its own text, or from the writer before something else. */
  datatype Ending = Open | ByText | ByWriter

  datatype Line = Line(source: Source, body: string, ending: Ending)

  function Mark(s: Source): string
  {
    match s case FromStream(stream) => Label(stream) case FromHook => ""
  }

  /** A line as printed. A stream's line stands behind the label of that stream. */
  function Physical(l: Line): string { Mark(l.source) + l.body }

  function LineText(l: Line): string { Physical(l) + if l.ending.Open? then "" else "\n" }

  function Joined(lines: seq<Line>): string
  {
    if lines == [] then "" else Joined(lines[..|lines| - 1]) + LineText(lines[|lines| - 1])
  }

  predicate LastOpen(lines: seq<Line>) { lines != [] && lines[|lines| - 1].ending.Open? }

  /** What one line carries for a stream: its text, and its newline unless the writer put it in. */
  function CarriedBy(l: Line, s: Stream): string
  {
    if l.source != FromStream(s) then "" else if l.ending.ByText? then l.body + "\n" else l.body
  }

  function Carried(lines: seq<Line>, s: Stream): string
  {
    if lines == [] then "" else Carried(lines[..|lines| - 1], s) + CarriedBy(lines[|lines| - 1], s)
  }

  function HookOf(l: Line): seq<string> { if l.source.FromHook? then [l.body] else [] }

  function HookLines(lines: seq<Line>): seq<string>
  {
    if lines == [] then [] else HookLines(lines[..|lines| - 1]) + HookOf(lines[|lines| - 1])
  }

  // ----- How records become lines -----

  function CloseLast(lines: seq<Line>): seq<Line>
  {
    if LastOpen(lines) then lines[..|lines| - 1] + [lines[|lines| - 1].(ending := ByWriter)] else lines
  }

  /** The line with one more character of its text. */
  function With(l: Line, c: char): Line
  {
    if c == '\n' then l.(ending := ByText) else l.(body := l.body + [c])
  }

  function AddChar(lines: seq<Line>, s: Stream, c: char): seq<Line>
  {
    if LastOpen(lines) then lines[..|lines| - 1] + [With(lines[|lines| - 1], c)]
    else lines + [With(Line(FromStream(s), "", Open), c)]
  }

  function AddText(lines: seq<Line>, s: Stream, text: string): seq<Line>
    decreases |text|
  {
    if text == "" then lines else AddText(AddChar(lines, s, text[0]), s, text[1..])
  }

  function AddRecord(lines: seq<Line>, key: string, r: Record): seq<Line>
  {
    match r
    case Output(_, stream, _, _) => AddText(Base(lines, key, r), stream, Shown(r))
    case Invocation(_, _, _, _, _, _, _) => CloseLast(lines) + [Line(FromHook, InvocationLine(r), ByWriter)]
    case _ => lines
  }

  function AddRecords(lines: seq<Line>, key: string, records: seq<Record>): seq<Line>
    decreases |records|
  {
    if records == [] then lines
    else
      var r := records[0];
      AddRecords(AddRecord(lines, key, r), if r.Output? then Key(r) else key, records[1..])
  }

  /** Everything the records of one stream show. */
  function ShownBy(records: seq<Record>, s: Stream): string
  {
    if records == [] then ""
    else (if records[0].Output? && records[0].stream == s then Shown(records[0]) else "") + ShownBy(records[1..], s)
  }

  function HooksOf(records: seq<Record>): seq<string>
  {
    if records == [] then []
    else (if records[0].Invocation? then [InvocationLine(records[0])] else []) + HooksOf(records[1..])
  }

  // ----- Facts about the last line -----

  lemma Split(lines: seq<Line>, l: Line)
    ensures (lines + [l])[..|lines|] == lines
    ensures Joined(lines + [l]) == Joined(lines) + LineText(l)
    ensures HookLines(lines + [l]) == HookLines(lines) + HookOf(l)
    ensures forall s :: Carried(lines + [l], s) == Carried(lines, s) + CarriedBy(l, s)
  {
    assert (lines + [l])[..|lines|] == lines;
  }

  lemma SplitLast(lines: seq<Line>)
    requires lines != []
    ensures lines == lines[..|lines| - 1] + [lines[|lines| - 1]]
  {
  }

  /** A stream's line is one physical line, and only the last line can be open. */
  ghost predicate WellFormed(lines: seq<Line>)
  {
    && (forall l | l in lines && l.source.FromStream? :: '\n' !in l.body)
    && (forall l | l in lines && l.source.FromHook? :: l.ending == ByWriter)
    && forall i | 0 <= i < |lines| - 1 :: !lines[i].ending.Open?
  }

  lemma ClosingLast(lines: seq<Line>)
    requires WellFormed(lines)
    ensures WellFormed(CloseLast(lines)) && !LastOpen(CloseLast(lines))
    ensures Joined(CloseLast(lines)) == Joined(lines) + if LastOpen(lines) then "\n" else ""
    ensures HookLines(CloseLast(lines)) == HookLines(lines)
    ensures forall s :: Carried(CloseLast(lines), s) == Carried(lines, s)
  {
    if LastOpen(lines) {
      var before, l := lines[..|lines| - 1], lines[|lines| - 1];
      SplitLast(lines);
      Split(before, l);
      Split(before, l.(ending := ByWriter));
      assert l in lines;
      assert LineText(l.(ending := ByWriter)) == LineText(l) + "\n";
      ConcatAssociates(Joined(before), LineText(l), "\n");
    }
  }

  /** The open line belongs to the stream, so more of its text continues it. */
  predicate Continues(lines: seq<Line>, s: Stream)
  {
    LastOpen(lines) ==> lines[|lines| - 1].source == FromStream(s)
  }

  lemma AddingCharShape(lines: seq<Line>, s: Stream, c: char)
    requires WellFormed(lines) && Continues(lines, s)
    ensures var more := AddChar(lines, s, c);
            WellFormed(more) && (LastOpen(more) <==> c != '\n') && Continues(more, s)
  {
    if LastOpen(lines) { assert lines[|lines| - 1] in lines; }
  }

  lemma AddingCharPrints(lines: seq<Line>, s: Stream, c: char)
    requires WellFormed(lines) && Continues(lines, s)
    ensures Joined(AddChar(lines, s, c)) == Joined(lines) + (if LastOpen(lines) then "" else Label(s)) + [c]
  {
    if LastOpen(lines) {
      var before, l := lines[..|lines| - 1], lines[|lines| - 1];
      Split(before, With(l, c));
      WithPrints(l, c);
      ConcatAssociates(Joined(before), LineText(l), [c]);
      NothingBetween(Joined(lines), [c]);
    } else {
      var l := Line(FromStream(s), "", Open);
      Split(lines, With(l, c));
      WithPrints(l, c);
      EmptyLinePrints(s);
      ConcatAssociates(Joined(lines), Label(s), [c]);
    }
  }

  lemma NothingBetween(a: string, b: string)
    ensures a + "" + b == a + b
  {
    assert a + "" == a;
  }

  lemma EmptyLinePrints(s: Stream)
    ensures LineText(Line(FromStream(s), "", Open)) == Label(s)
  {
    assert Label(s) + "" == Label(s);
  }

  lemma WithPrints(l: Line, c: char)
    requires l.ending.Open?
    ensures LineText(With(l, c)) == LineText(l) + [c]
  {
    ConcatAssociates(Mark(l.source), l.body, [c]);
    assert Physical(l) + "" == Physical(l);
    assert Physical(With(l, c)) + "" == Physical(With(l, c));
  }

  lemma WithCarries(l: Line, c: char, t: Stream)
    requires l.ending.Open?
    ensures CarriedBy(With(l, c), t) == CarriedBy(l, t) + if l.source == FromStream(t) then [c] else ""
  {
  }

  lemma AddingCharCarries(lines: seq<Line>, s: Stream, c: char, t: Stream)
    requires WellFormed(lines) && Continues(lines, s)
    ensures Carried(AddChar(lines, s, c), t) == Carried(lines, t) + if t == s then [c] else ""
  {
    var before, l := if LastOpen(lines) then lines[..|lines| - 1] else lines, if LastOpen(lines) then lines[|lines| - 1] else Line(FromStream(s), "", Open);
    Split(before, With(l, c));
    WithCarries(l, c, t);
    ConcatAssociates(Carried(before, t), CarriedBy(l, t), if t == s then [c] else "");
    if !LastOpen(lines) { NothingBehind(Carried(lines, t)); }
  }

  lemma NothingBehind(a: string)
    ensures a + "" == a
  {
  }

  lemma AddingCharKeepsHooks(lines: seq<Line>, s: Stream, c: char)
    requires WellFormed(lines) && Continues(lines, s)
    ensures HookLines(AddChar(lines, s, c)) == HookLines(lines)
  {
    if LastOpen(lines) {
      Split(lines[..|lines| - 1], With(lines[|lines| - 1], c));
    } else {
      Split(lines, With(Line(FromStream(s), "", Open), c));
      assert HookLines(lines) + [] == HookLines(lines);
    }
  }

  /** Adding text is rendering it. */
  lemma {:induction false} AddingText(lines: seq<Line>, s: Stream, text: string)
    requires WellFormed(lines) && Continues(lines, s)
    ensures var more := AddText(lines, s, text);
            && WellFormed(more) && Continues(more, s) && LastOpen(more) == MidAfter(text, LastOpen(lines))
            && Joined(more) == Joined(lines) + Render(Label(s), text, LastOpen(lines))
    decreases |text|
  {
    if text == "" {
      assert Joined(lines) + "" == Joined(lines);
    } else {
      var c, rest := text[0], text[1..];
      AddingCharShape(lines, s, c);
      AddingCharPrints(lines, s, c);
      AddingText(AddChar(lines, s, c), s, rest);
      RenderingStep(Joined(lines), if LastOpen(lines) then "" else Label(s), c, Render(Label(s), rest, c != '\n'));
    }
  }

  /** The stream carries exactly the added text more, and nothing else changes. */
  lemma {:induction false} AddingTextCarries(lines: seq<Line>, s: Stream, text: string, t: Stream)
    requires WellFormed(lines) && Continues(lines, s)
    ensures Carried(AddText(lines, s, text), t) == Carried(lines, t) + if t == s then text else ""
    ensures HookLines(AddText(lines, s, text)) == HookLines(lines)
    decreases |text|
  {
    if text == "" {
      assert Carried(lines, t) + "" == Carried(lines, t);
    } else {
      var c, rest := text[0], text[1..];
      AddingCharShape(lines, s, c);
      AddingCharCarries(lines, s, c, t);
      AddingCharKeepsHooks(lines, s, c);
      AddingTextCarries(AddChar(lines, s, c), s, rest, t);
      assert text == [c] + rest;
      ConcatAssociates(Carried(lines, t), [c], rest);
      NothingBetween(Carried(lines, t), "");
    }
  }

  lemma RenderingStep(before: string, tag: string, c: char, rest: string)
    ensures before + tag + [c] + rest == before + (tag + [c] + rest)
  {
  }

  // ----- The printed transcript -----

  /** The sheet shows these lines, and knows which stream the open one belongs to. */
  ghost predicate Shows(p: Sheet, lines: seq<Line>)
  {
    && WellFormed(lines) && p.out == Joined(lines) && p.mid == LastOpen(lines)
    && (p.mid ==> exists s :: KeyOf(p.key, s) && lines[|lines| - 1].source == FromStream(s))
  }

  predicate KeyOf(key: string, s: Stream)
  {
    key != "" && key[|key| - 1] == StreamName(s)[|StreamName(s)| - 1]
  }

  /** A key ends in the name of its stream, and the names end differently. */
  lemma KeyNamesStream(r: Record, s: Stream)
    requires r.Output?
    ensures KeyOf(Key(r), r.stream)
    ensures KeyOf(Key(r), s) ==> s == r.stream
  {
    var name := StreamName(r.stream);
    assert Key(r)[|Key(r)| - 1] == name[|name| - 1];
  }

  /** Where the text of an output record continues. */
  function Base(lines: seq<Line>, key: string, r: Record): seq<Line>
    requires r.Output?
  {
    if key != Key(r) || r.elided.Some? then CloseLast(lines) else lines
  }

  lemma BaseContinues(p: Sheet, lines: seq<Line>, r: Record)
    requires Shows(p, lines) && r.Output?
    ensures var base := Base(lines, p.key, r);
            && WellFormed(base) && Continues(base, r.stream)
            && Joined(base) == (if p.key != Key(r) || r.elided.Some? then LineEnded(p) else p).out
            && LastOpen(base) == (if p.key != Key(r) || r.elided.Some? then LineEnded(p) else p).mid
            && HookLines(base) == HookLines(lines) && forall t :: Carried(base, t) == Carried(lines, t)
  {
    ClosingLast(lines);
    assert Joined(lines) + "" == Joined(lines);
    if p.mid && p.key == Key(r) {
      var s :| KeyOf(p.key, s) && lines[|lines| - 1].source == FromStream(s);
      KeyNamesStream(r, s);
    }
  }

  lemma AddingOutput(p: Sheet, lines: seq<Line>, r: Record)
    requires Shows(p, lines) && r.Output?
    ensures Shows(Printed(p, r), AddRecord(lines, p.key, r))
    ensures HookLines(AddRecord(lines, p.key, r)) == HookLines(lines)
    ensures forall t :: Carried(AddRecord(lines, p.key, r), t) == Carried(lines, t) + if r.stream == t then Shown(r) else ""
  {
    var base := Base(lines, p.key, r);
    BaseContinues(p, lines, r);
    AddingText(base, r.stream, Shown(r));
    forall t
      ensures Carried(AddRecord(lines, p.key, r), t) == Carried(lines, t) + if r.stream == t then Shown(r) else ""
      ensures HookLines(AddRecord(lines, p.key, r)) == HookLines(lines)
    {
      AddingTextCarries(base, r.stream, Shown(r), t);
    }
    AddingTextCarries(base, r.stream, Shown(r), r.stream);
    KeyNamesStream(r, r.stream);
  }

  /** The line of a hook invocation, behind the closed lines. */
  lemma AddingHook(lines: seq<Line>, text: string)
    requires WellFormed(lines) && !LastOpen(lines)
    ensures var more := lines + [Line(FromHook, text, ByWriter)];
            && WellFormed(more) && !LastOpen(more) && Joined(more) == Joined(lines) + text + "\n"
            && HookLines(more) == HookLines(lines) + [text]
  {
    var l := Line(FromHook, text, ByWriter);
    Split(lines, l);
    assert Physical(l) == text by { assert "" + text == text; }
    ConcatAssociates(Joined(lines), text, "\n");
  }

  lemma HookCarriesNothing(lines: seq<Line>, text: string, t: Stream)
    ensures Carried(lines + [Line(FromHook, text, ByWriter)], t) == Carried(lines, t)
  {
    Split(lines, Line(FromHook, text, ByWriter));
    assert Carried(lines, t) + "" == Carried(lines, t);
  }

  lemma AddingInvocation(p: Sheet, lines: seq<Line>, r: Record)
    requires Shows(p, lines) && r.Invocation?
    ensures Shows(Printed(p, r), AddRecord(lines, p.key, r))
    ensures HookLines(AddRecord(lines, p.key, r)) == HookLines(lines) + [InvocationLine(r)]
    ensures forall t :: Carried(AddRecord(lines, p.key, r), t) == Carried(lines, t)
  {
    ClosingLast(lines);
    AddingHook(CloseLast(lines), InvocationLine(r));
    assert Joined(lines) + "" == Joined(lines);
    forall t
      ensures Carried(AddRecord(lines, p.key, r), t) == Carried(lines, t)
    {
      HookCarriesNothing(CloseLast(lines), InvocationLine(r), t);
    }
  }

  lemma AddingRecord(p: Sheet, lines: seq<Line>, r: Record)
    requires Shows(p, lines)
    ensures Shows(Printed(p, r), AddRecord(lines, p.key, r))
    ensures Printed(p, r).key == if r.Output? then Key(r) else p.key
    ensures HookLines(AddRecord(lines, p.key, r)) == HookLines(lines) + if r.Invocation? then [InvocationLine(r)] else []
    ensures forall t :: Carried(AddRecord(lines, p.key, r), t) == Carried(lines, t) + if r.Output? && r.stream == t then Shown(r) else ""
  {
    assert forall t :: Carried(lines, t) + "" == Carried(lines, t);
    assert HookLines(lines) + [] == HookLines(lines);
    if r.Output? {
      AddingOutput(p, lines, r);
    } else if r.Invocation? {
      AddingInvocation(p, lines, r);
    }
  }

  lemma {:induction false} AddingRecords(p: Sheet, lines: seq<Line>, records: seq<Record>)
    requires Shows(p, lines)
    ensures var all := AddRecords(lines, p.key, records);
            && Shows(PrintedAll(p, records), all)
            && HookLines(all) == HookLines(lines) + HooksOf(records)
            && forall t :: Carried(all, t) == Carried(lines, t) + ShownBy(records, t)
    decreases |records|
  {
    if records == [] {
      assert HookLines(lines) + [] == HookLines(lines);
      assert forall t :: Carried(lines, t) + "" == Carried(lines, t);
    } else {
      var r, rest := records[0], records[1..];
      AddingRecord(p, lines, r);
      AddingRecords(Printed(p, r), AddRecord(lines, p.key, r), rest);
      ConcatAssociates(HookLines(lines), if r.Invocation? then [InvocationLine(r)] else [], HooksOf(rest));
      forall t
        ensures Carried(AddRecords(lines, p.key, records), t) == Carried(lines, t) + ShownBy(records, t)
      {
        ConcatAssociates(Carried(lines, t), if r.Output? && r.stream == t then Shown(r) else "", ShownBy(rest, t));
      }
    }
  }

  function LinesOf(records: seq<Record>): seq<Line> { AddRecords([], "", records) }

  /**
   The transcript is a sequence of lines. Each line of output is one physical line behind the label of its
   own stream; per stream the lines carry exactly the text that its records show, in order; and the lines
   of hooks are the invocations, in order.
   */
  lemma EveryLineHasItsSource(records: seq<Record>)
    ensures var lines := LinesOf(records);
            && PrintedAll(Sheet("", "", "", false), records).out == Joined(lines)
            && (forall l | l in lines && l.source.FromStream? :: '\n' !in l.body && Physical(l) == Label(l.source.stream) + l.body)
            && (forall i | 0 <= i < |lines| - 1 :: !lines[i].ending.Open?)
            && (forall s :: Carried(lines, s) == ShownBy(records, s))
            && HookLines(lines) == HooksOf(records)
  {
    AddingRecords(Sheet("", "", "", false), [], records);
    assert [] + HooksOf(records) == HooksOf(records);
    assert forall s :: "" + ShownBy(records, s) == ShownBy(records, s);
  }

  /** Without elisions, a stream shows its text without control characters. */
  lemma {:induction false} StreamShowsItsText(records: seq<Record>, s: Stream)
    requires forall r | r in records :: r.Output? ==> r.elided.None?
    ensures ShownBy(records, s) == StripControl(TextBy(records, s))
  {
    if records != [] {
      StreamShowsItsText(records[1..], s);
      StripDistributes(if records[0].Output? && records[0].stream == s then records[0].text else "", TextBy(records[1..], s));
    }
  }

  function TextBy(records: seq<Record>, s: Stream): string
  {
    if records == [] then ""
    else (if records[0].Output? && records[0].stream == s then records[0].text else "") + TextBy(records[1..], s)
  }

  // ----- Splitting the transcript at its newlines -----

  /** The lines that are closed, as printed. */
  function ClosedLines(lines: seq<Line>): seq<string>
  {
    if lines == [] then []
    else ClosedLines(lines[..|lines| - 1]) + if LastOpen(lines) then [] else [Physical(lines[|lines| - 1])]
  }

  lemma OneLine(line: string)
    requires '\n' !in line
    ensures LogTailers.Lines(line + "\n") == [line] && LogTailers.Partial(line + "\n") == ""
    ensures LogTailers.Lines(line) == [] && LogTailers.Partial(line) == line
  {
    var closed := line + "\n";
    assert closed[..|line|] == line && closed[|line| + 1..] == "";
    IndexIsFirst(closed, '\n', |line|);
    assert IndexOf(line, '\n') == |line|;
    assert LogTailers.Lines("") == [] && [line] + [] == [line];
  }

  lemma LastLine(prefix: string, line: string)
    requires LogTailers.Partial(prefix) == "" && '\n' !in line
    ensures LogTailers.Lines(prefix + (line + "\n")) == LogTailers.Lines(prefix) + [line]
    ensures LogTailers.Partial(prefix + (line + "\n")) == ""
    ensures LogTailers.Lines(prefix + line) == LogTailers.Lines(prefix) && LogTailers.Partial(prefix + line) == line
  {
    OneLine(line);
    NothingInFront(line);
    NothingInFront(line + "\n");
    LogTailers.LinesOfAppend(prefix, line + "\n");
    LogTailers.LinesOfAppend(prefix, line);
    assert LogTailers.Lines(prefix) + [] == LogTailers.Lines(prefix);
  }

  lemma NothingInFront(s: string)
    ensures "" + s == s
  {
  }

  lemma NoNewlineInLabel(l: Line)
    requires '\n' !in l.body
    ensures '\n' !in Physical(l)
  {
  }

  /** One more line behind closed ones. */
  lemma LastSplits(before: seq<Line>, l: Line)
    requires LogTailers.Lines(Joined(before)) == ClosedLines(before) && LogTailers.Partial(Joined(before)) == "" && '\n' !in l.body
    ensures var lines := before + [l];
            && LogTailers.Lines(Joined(lines)) == ClosedLines(lines)
            && LogTailers.Partial(Joined(lines)) == if l.ending.Open? then Physical(l) else ""
  {
    Split(before, l);
    NoNewlineInLabel(l);
    LastLine(Joined(before), Physical(l));
    assert Physical(l) + "" == Physical(l);
    assert ClosedLines(before) + [] == ClosedLines(before);
  }

  lemma {:induction false} JoinedSplits(lines: seq<Line>)
    requires WellFormed(lines) && forall l | l in lines :: '\n' !in l.body
    ensures LogTailers.Lines(Joined(lines)) == ClosedLines(lines)
    ensures LogTailers.Partial(Joined(lines)) == if LastOpen(lines) then Physical(lines[|lines| - 1]) else ""
  {
    if lines != [] {
      var before, l := lines[..|lines| - 1], lines[|lines| - 1];
      SplitLast(lines);
      assert forall x | x in before :: x in lines;
      JoinedSplits(before);
      assert !LastOpen(before);
      LastSplits(before, l);
    }
  }

  lemma {:induction false} ClosedInOrder(lines: seq<Line>, l: Line)
    requires l in lines && !l.ending.Open?
    ensures Physical(l) in ClosedLines(lines)
  {
    var before, last := lines[..|lines| - 1], lines[|lines| - 1];
    SplitLast(lines);
    if l in before { ClosedInOrder(before, l); }
  }

  /** Splitting the transcript at its newlines gives these very lines exactly when no invocation prints a newline. */
  lemma SplitsIntoLinesIff(records: seq<Record>)
    ensures var out := PrintedAll(Sheet("", "", "", false), records).out;
            LogTailers.Lines(out) == ClosedLines(LinesOf(records)) <==> forall h | h in HooksOf(records) :: '\n' !in h
  {
    var lines := LinesOf(records);
    EveryLineHasItsSource(records);
    AddingRecords(Sheet("", "", "", false), [], records);
    if forall h | h in HooksOf(records) :: '\n' !in h {
      forall l | l in lines
        ensures '\n' !in l.body
      {
        if l.source.FromHook? { LineIsHook(lines, l); }
      }
      JoinedSplits(lines);
    } else {
      var h :| h in HooksOf(records) && '\n' in h;
      var l := HookHasLine(lines, h);
      NewlineBreaksLine(lines, l);
    }
  }

  /** A split at newlines has no line that holds one. */
  lemma NewlineBreaksLine(lines: seq<Line>, l: Line)
    requires l in lines && l.source.FromHook? && !l.ending.Open? && '\n' in l.body
    ensures LogTailers.Lines(Joined(lines)) != ClosedLines(lines)
  {
    ClosedInOrder(lines, l);
    assert Physical(l) == l.body by { assert "" + l.body == l.body; }
    LogTailers.LinesRebuild(Joined(lines));
  }

  lemma {:induction false} HookHasLine(lines: seq<Line>, h: string) returns (l: Line)
    requires h in HookLines(lines)
    ensures l in lines && l.source.FromHook? && l.body == h
  {
    var before, last := lines[..|lines| - 1], lines[|lines| - 1];
    SplitLast(lines);
    if h in HookLines(before) { l := HookHasLine(before, h); } else { l := last; }
  }

  lemma {:induction false} LineIsHook(lines: seq<Line>, l: Line)
    requires l in lines && l.source.FromHook?
    ensures l.body in HookLines(lines)
  {
    var before, last := lines[..|lines| - 1], lines[|lines| - 1];
    SplitLast(lines);
    if l in before { LineIsHook(before, l); }
  }

  lemma {:induction false} StripKeepsNewlines(s: string)
    requires '\n' in s
    ensures '\n' in StripControl(s)
  {
    if s[0] != '\n' { StripKeepsNewlines(s[1..]); }
  }

  lemma Stays(a: string, b: string, c: char)
    ensures c in a ==> c in a + b
    ensures c in b ==> c in a + b
  {
    if i :| 0 <= i < |b| && b[i] == c { assert (a + b)[|a| + i] == c; }
  }

  lemma NewlineInKeyPrints(r: Record)
    requires r.Invocation? && '\n' in r.hookKey
    ensures '\n' in InvocationLine(r)
  {
    var front := "# " + (if r.hook == "" then r.phase else r.hook);
    var state, reason := ": " + r.state, Optional(" ", r.reason, "");
    var exit := if r.exitCode.Some? then " exit=" + Signed(r.exitCode.value) else "";
    var key := Optional(" (", r.hookKey, ")");
    StripKeepsNewlines(r.hookKey);
    Stays(" (", StripControl(r.hookKey), '\n');
    Stays(" (" + StripControl(r.hookKey), ")", '\n');
    Stays(front, key, '\n');
    Stays(front + key, ": ", '\n');
    Stays(front + key + ": ", r.state, '\n');
    Stays(front + key + ": " + r.state, reason, '\n');
    Stays(front + key + ": " + r.state + reason, exit, '\n');
    Stays(front + key + ": " + r.state + reason + exit, Optional(" signal=", r.signal, ""), '\n');
  }

  /** The key of a hook is any text of the configuration: a newline in one makes a line that belongs to nothing. */
  lemma NewlineInHookKey(key: string)
    requires '\n' in key
    ensures var r := Invocation("postCreateCommand", "lifecycle", key, "running", "", None, "");
            && ValidRecord(r)
            && LogTailers.Lines(PrintedAll(Sheet("", "", "", false), [r]).out) != ClosedLines(LinesOf([r]))
  {
    var r := Invocation("postCreateCommand", "lifecycle", key, "running", "", None, "");
    NewlineInKeyPrints(r);
    assert HooksOf([r]) == [InvocationLine(r)];
    SplitsIntoLinesIff([r]);
  }
}
