/**
 * parseEpicContent: splits the Epic text the language model writes into the
 * five fields of an Epic issue. The text is read line by line; header lines
 * switch the current section, and the other non-blank lines of a section are
 * collected, trimmed, one per line.
 */
module EpicParser {
  import opened Wrappers
  import JsString

  datatype Section = Summary | Description | IWant | SoThat | AcceptanceCriteria

  datatype Sections = Sections(summary: string, description: string, iWant: string, soThat: string, acceptanceCriteria: string)

  const SummaryHeader := "Epic Summary:"
  const DescriptionHeader := "Business Context:"
  const IWantMarker := "i want:"
  const SoThatMarker := "so that:"
  const CriteriaHeader := "Acceptance Criteria:"

  /**
   * The section a line opens, by the tests in their fixed order (the first
   * that matches wins), or None for a line that opens none. "i want:" and
   * "so that:" match anywhere in the lower-cased line; the other headers
   * are case-sensitive prefixes.
   */
  function HeaderOf(line: string): Option<Section> {
    if JsString.StartsWith(line, SummaryHeader) then Some(Summary)
    else if JsString.StartsWith(line, DescriptionHeader) then Some(Description)
    else if JsString.Contains(JsString.Lower(line), IWantMarker) then Some(IWant)
    else if JsString.Contains(JsString.Lower(line), SoThatMarker) then Some(SoThat)
    else if JsString.StartsWith(line, CriteriaHeader) then Some(AcceptanceCriteria)
    else None
  }

  /** A line that is collected into the open section: no header, not blank. */
  predicate IsBody(line: string) {
    HeaderOf(line).None? && JsString.Trim(line) != ""
  }

  /** The summary an "Epic Summary:" line carries: the rest of the line, trimmed. */
  function SummaryText(line: string): string
    requires JsString.StartsWith(line, SummaryHeader)
  {
    JsString.Trim(line[|SummaryHeader|..])
  }

  /** The section open after the lines ls, when `start` was open before them. */
  function After(start: Option<Section>, ls: seq<string>): Option<Section>
    decreases |ls|
  {
    if ls == [] then start
    else
      match HeaderOf(ls[|ls| - 1])
      case Some(h) => Some(h)
      case None => After(start, ls[..|ls| - 1])
  }

  /** The body lines of section s among ls, trimmed, in order. */
  function Body(start: Option<Section>, ls: seq<string>, s: Section): seq<string>
    decreases |ls|
  {
    if ls == [] then []
    else
      var init := ls[..|ls| - 1];
      var last := ls[|ls| - 1];
      Body(start, init, s) + (if IsBody(last) && After(start, init) == Some(s) then [JsString.Trim(last)] else [])
  }

  /** The summary after the lines ls: that of the last "Epic Summary:" line, or `init` if none. */
  function SummaryOf(init: string, ls: seq<string>): string
    decreases |ls|
  {
    if ls == [] then init
    else if HeaderOf(ls[|ls| - 1]) == Some(Summary) then SummaryText(ls[|ls| - 1])
    else SummaryOf(init, ls[..|ls| - 1])
  }

  /** Body lines as the parser accumulates them: each followed by a newline. */
  function Lines(body: seq<string>): string
    decreases |body|
  {
    if body == [] then "" else Lines(body[..|body| - 1]) + body[|body| - 1] + "\n"
  }

  /** What the parser returns for the given text. */
  function Parsed(content: string): Sections {
    var ls := JsString.Split(content, '\n');
    Sections(
      SummaryOf("", ls),
      JsString.Trim(Lines(Body(None, ls, Description))),
      JsString.Trim(Lines(Body(None, ls, IWant))),
      JsString.Trim(Lines(Body(None, ls, SoThat))),
      JsString.Trim(Lines(Body(None, ls, AcceptanceCriteria))))
  }

  /** `sections[s] += text` */
  function Append(sections: Sections, s: Section, text: string): Sections {
    match s
    case Summary => sections.(summary := sections.summary + text)
    case Description => sections.(description := sections.description + text)
    case IWant => sections.(iWant := sections.iWant + text)
    case SoThat => sections.(soThat := sections.soThat + text)
    case AcceptanceCriteria => sections.(acceptanceCriteria := sections.acceptanceCriteria + text)
  }

  /** The accumulated state after a prefix of the lines, before the final trim pass. */
  ghost predicate Accumulated(sections: Sections, ls: seq<string>) {
    && sections.summary == SummaryOf("", ls)
    && sections.description == Lines(Body(None, ls, Description))
    && sections.iWant == Lines(Body(None, ls, IWant))
    && sections.soThat == Lines(Body(None, ls, SoThat))
    && sections.acceptanceCriteria == Lines(Body(None, ls, AcceptanceCriteria))
  }

  /** One more line: how each part of the specification moves. */
  lemma ExtendAfter(start: Option<Section>, ls: seq<string>, line: string)
    ensures After(start, ls + [line]) == if HeaderOf(line).Some? then HeaderOf(line) else After(start, ls)
  {
    assert (ls + [line])[..|ls|] == ls;
  }

  lemma ExtendBody(start: Option<Section>, ls: seq<string>, line: string, s: Section)
    ensures Body(start, ls + [line], s) ==
      Body(start, ls, s) + (if IsBody(line) && After(start, ls) == Some(s) then [JsString.Trim(line)] else [])
  {
    assert (ls + [line])[..|ls|] == ls;
  }

  lemma ExtendSummary(init: string, ls: seq<string>, line: string)
    ensures SummaryOf(init, ls + [line]) ==
      if HeaderOf(line) == Some(Summary) then SummaryText(line) else SummaryOf(init, ls)
  {
    assert (ls + [line])[..|ls|] == ls;
  }

  /** The parts of the specification after one more line that adds no body text. */
  lemma ExtendQuiet(ls: seq<string>, line: string)
    requires !IsBody(line) || After(None, ls).None? || After(None, ls) == Some(Summary)
    ensures After(None, ls + [line]) == if HeaderOf(line).Some? then HeaderOf(line) else After(None, ls)
    ensures SummaryOf("", ls + [line]) == if HeaderOf(line) == Some(Summary) then SummaryText(line) else SummaryOf("", ls)
    ensures Body(None, ls + [line], Description) == Body(None, ls, Description)
    ensures Body(None, ls + [line], IWant) == Body(None, ls, IWant)
    ensures Body(None, ls + [line], SoThat) == Body(None, ls, SoThat)
    ensures Body(None, ls + [line], AcceptanceCriteria) == Body(None, ls, AcceptanceCriteria)
  {
    ExtendAfter(None, ls, line);
    ExtendSummary("", ls, line);
    ExtendBody(None, ls, line, Description);
    ExtendBody(None, ls, line, IWant);
    ExtendBody(None, ls, line, SoThat);
    ExtendBody(None, ls, line, AcceptanceCriteria);
    assert Body(None, ls, Description) + [] == Body(None, ls, Description);
    assert Body(None, ls, IWant) + [] == Body(None, ls, IWant);
    assert Body(None, ls, SoThat) + [] == Body(None, ls, SoThat);
    assert Body(None, ls, AcceptanceCriteria) + [] == Body(None, ls, AcceptanceCriteria);
  }

  lemma LinesSnoc(body: seq<string>, x: string)
    ensures Lines(body + [x]) == Lines(body) + (x + "\n")
  {
    assert (body + [x])[..|body|] == body;
    assert Lines(body) + x + "\n" == Lines(body) + (x + "\n");
  }

  lemma HeaderStep(sections: Sections, ls: seq<string>, line: string)
    requires Accumulated(sections, ls)
    requires HeaderOf(line).Some? && HeaderOf(line) != Some(Summary)
    ensures Accumulated(sections, ls + [line]) && After(None, ls + [line]) == HeaderOf(line)
  {
    ExtendQuiet(ls, line);
  }

  lemma SummaryStep(sections: Sections, ls: seq<string>, line: string)
    requires Accumulated(sections, ls)
    requires HeaderOf(line) == Some(Summary)
    ensures Accumulated(sections.(summary := SummaryText(line)), ls + [line])
    ensures After(None, ls + [line]) == Some(Summary)
  {
    ExtendQuiet(ls, line);
  }

  lemma SkipStep(sections: Sections, ls: seq<string>, line: string)
    requires Accumulated(sections, ls)
    requires HeaderOf(line).None?
    requires !IsBody(line) || After(None, ls).None? || After(None, ls) == Some(Summary)
    ensures Accumulated(sections, ls + [line]) && After(None, ls + [line]) == After(None, ls)
  {
    ExtendQuiet(ls, line);
  }

  /** A body line of section s leaves the other sections' bodies alone. */
  lemma BodyOther(ls: seq<string>, line: string, s: Section, t: Section)
    requires After(None, ls) == Some(s) && t != s
    ensures Body(None, ls + [line], t) == Body(None, ls, t)
  {
    ExtendBody(None, ls, line, t);
    assert Body(None, ls, t) + [] == Body(None, ls, t);
  }

  /** ... and extends the text of its own section by that line and a newline. */
  lemma BodySame(ls: seq<string>, line: string, s: Section)
    requires IsBody(line) && After(None, ls) == Some(s)
    ensures Lines(Body(None, ls + [line], s)) == Lines(Body(None, ls, s)) + (JsString.Trim(line) + "\n")
  {
    ExtendBody(None, ls, line, s);
    LinesSnoc(Body(None, ls, s), JsString.Trim(line));
  }

  lemma BodyStep(sections: Sections, ls: seq<string>, line: string, s: Section)
    requires Accumulated(sections, ls)
    requires IsBody(line) && After(None, ls) == Some(s) && s != Summary
    ensures Accumulated(Append(sections, s, JsString.Trim(line) + "\n"), ls + [line])
    ensures After(None, ls + [line]) == Some(s)
  {
    ExtendAfter(None, ls, line);
    ExtendSummary("", ls, line);
    BodySame(ls, line, s);
    if s != Description { BodyOther(ls, line, s, Description); }
    if s != IWant { BodyOther(ls, line, s, IWant); }
    if s != SoThat { BodyOther(ls, line, s, SoThat); }
    if s != AcceptanceCriteria { BodyOther(ls, line, s, AcceptanceCriteria); }
  }

  method ParseEpicContent(content: string) returns (sections: Sections)
    ensures sections == Parsed(content)
  {
    sections := Sections("", "", "", "", "");
    var lines := JsString.Split(content, '\n');
    var current: Option<Section> := None;
    for i := 0 to |lines|
      invariant current == After(None, lines[..i])
      invariant Accumulated(sections, lines[..i])
    {
      var line := lines[i];
      assert lines[..i + 1] == lines[..i] + [line];
      if JsString.StartsWith(line, SummaryHeader) {
        SummaryStep(sections, lines[..i], line);
        current := Some(Summary);
        sections := sections.(summary := JsString.Trim(line[|SummaryHeader|..]));
      } else if JsString.StartsWith(line, DescriptionHeader) {
        HeaderStep(sections, lines[..i], line);
        current := Some(Description);
      } else if JsString.Contains(JsString.Lower(line), IWantMarker) {
        HeaderStep(sections, lines[..i], line);
        current := Some(IWant);
      } else if JsString.Contains(JsString.Lower(line), SoThatMarker) {
        HeaderStep(sections, lines[..i], line);
        current := Some(SoThat);
      } else if JsString.StartsWith(line, CriteriaHeader) {
        HeaderStep(sections, lines[..i], line);
        current := Some(AcceptanceCriteria);
      } else if JsString.Trim(line) != "" && current.Some? {
        if current != Some(Summary) {
          BodyStep(sections, lines[..i], line, current.value);
          sections := Append(sections, current.value, JsString.Trim(line) + "\n");
        } else {
          SkipStep(sections, lines[..i], line);
        }
      } else {
        SkipStep(sections, lines[..i], line);
      }
    }
    assert lines[..|lines|] == lines;
    sections := sections.(
      description := JsString.Trim(sections.description),
      iWant := JsString.Trim(sections.iWant),
      soThat := JsString.Trim(sections.soThat),
      acceptanceCriteria := JsString.Trim(sections.acceptanceCriteria));
  }

  /** The section open after two runs of lines is that after the second, started from the first. */
  lemma {:induction false} AfterConcat(start: Option<Section>, a: seq<string>, b: seq<string>)
    ensures After(start, a + b) == After(After(start, a), b)
  {
    if b == [] {
      assert a + b == a;
    } else {
      var b' := b[..|b| - 1];
      assert (a + b)[..|a + b| - 1] == a + b';
      assert (a + b)[|a + b| - 1] == b[|b| - 1];
      AfterConcat(start, a, b');
    }
  }

  /** The body lines of a section over two runs of lines are those of the first run followed by those of the second. */
  lemma {:induction false} BodyConcat(start: Option<Section>, a: seq<string>, b: seq<string>, s: Section)
    ensures Body(start, a + b, s) == Body(start, a, s) + Body(After(start, a), b, s)
  {
    if b == [] {
      assert a + b == a;
    } else {
      var b' := b[..|b| - 1];
      assert (a + b)[..|a + b| - 1] == a + b';
      assert (a + b)[|a + b| - 1] == b[|b| - 1];
      BodyConcat(start, a, b', s);
      AfterConcat(start, a, b');
    }
  }

  lemma {:induction false} SummaryConcat(init: string, a: seq<string>, b: seq<string>)
    ensures SummaryOf(init, a + b) == SummaryOf(SummaryOf(init, a), b)
  {
    if b == [] {
      assert a + b == a;
    } else {
      var b' := b[..|b| - 1];
      assert (a + b)[..|a + b| - 1] == a + b';
      assert (a + b)[|a + b| - 1] == b[|b| - 1];
      SummaryConcat(init, a, b');
    }
  }

  predicate NoHeaders(ls: seq<string>) {
    forall i :: 0 <= i < |ls| ==> HeaderOf(ls[i]).None?
  }

  predicate NoSummaryHeader(ls: seq<string>) {
    forall i :: 0 <= i < |ls| ==> HeaderOf(ls[i]) != Some(Summary)
  }

  /** Without an "Epic Summary:" line the summary is never touched. */
  lemma {:induction false} SummaryKept(init: string, ls: seq<string>)
    requires NoSummaryHeader(ls)
    ensures SummaryOf(init, ls) == init
  {
    if ls != [] {
      var ls' := ls[..|ls| - 1];
      assert NoSummaryHeader(ls') by {
        forall i | 0 <= i < |ls'| ensures HeaderOf(ls'[i]) != Some(Summary) {
          assert ls'[i] == ls[i];
        }
      }
      SummaryKept(init, ls');
    }
  }

  /** The last "Epic Summary:" line decides the summary: later body or header lines leave it alone, and it overwrites any earlier one. */
  lemma LastSummaryWins(a: seq<string>, line: string, b: seq<string>)
    requires HeaderOf(line) == Some(Summary)
    requires NoSummaryHeader(b)
    ensures SummaryOf("", a + [line] + b) == SummaryText(line)
  {
    SummaryConcat("", a + [line], b);
    ExtendSummary("", a, line);
    SummaryKept(SummaryText(line), b);
  }

  /** Lines before the first header open no section and collect nothing. */
  lemma {:induction false} NoHeadersNoSection(ls: seq<string>, s: Section)
    requires NoHeaders(ls)
    ensures After(None, ls) == None
    ensures Body(None, ls, s) == []
    ensures SummaryOf("", ls) == ""
  {
    if ls != [] {
      var ls' := ls[..|ls| - 1];
      assert NoHeaders(ls') by {
        forall i | 0 <= i < |ls'| ensures HeaderOf(ls'[i]).None? {
          assert ls'[i] == ls[i];
        }
      }
      assert HeaderOf(ls[|ls| - 1]).None?;
      NoHeadersNoSection(ls', s);
    }
  }

  /** So the text before the first header is dropped. */
  lemma LeadingLinesDropped(a: seq<string>, b: seq<string>, s: Section)
    requires NoHeaders(a)
    ensures Body(None, a + b, s) == Body(None, b, s)
    ensures SummaryOf("", a + b) == SummaryOf("", b)
  {
    NoHeadersNoSection(a, s);
    BodyConcat(None, a, b, s);
    SummaryConcat("", a, b);
  }

  /** A header line adds none of its own text to any section. */
  lemma HeaderLineAddsNothing(start: Option<Section>, ls: seq<string>, line: string, s: Section)
    requires HeaderOf(line).Some?
    ensures Body(start, ls + [line], s) == Body(start, ls, s)
    ensures After(start, ls + [line]) == HeaderOf(line)
  {
    ExtendBody(start, ls, line, s);
    ExtendAfter(start, ls, line);
    assert Body(start, ls, s) + [] == Body(start, ls, s);
  }

  /** A line of white space only is no header and changes nothing. */
  lemma BlankLineIgnored(start: Option<Section>, ls: seq<string>, line: string, s: Section)
    requires JsString.AllSpace(line)
    ensures HeaderOf(line).None?
    ensures After(start, ls + [line]) == After(start, ls)
    ensures Body(start, ls + [line], s) == Body(start, ls, s)
  {
    var low := JsString.Lower(line);
    assert JsString.AllSpace(low);
    if line != [] {
      assert !JsString.StartsWith(line, SummaryHeader) by { assert !JsString.IsSpace(SummaryHeader[0]); }
      assert !JsString.StartsWith(line, DescriptionHeader) by { assert !JsString.IsSpace(DescriptionHeader[0]); }
      assert !JsString.StartsWith(line, CriteriaHeader) by { assert !JsString.IsSpace(CriteriaHeader[0]); }
    }
    assert !JsString.Contains(low, IWantMarker) by {
      forall i | 0 <= i <= |low| - |IWantMarker| ensures !JsString.OccursAt(low, IWantMarker, i) {
        assert low[i..i + |IWantMarker|][0] == low[i];
      }
    }
    assert !JsString.Contains(low, SoThatMarker) by {
      forall i | 0 <= i <= |low| - |SoThatMarker| ensures !JsString.OccursAt(low, SoThatMarker, i) {
        assert low[i..i + |SoThatMarker|][0] == low[i];
      }
    }
    JsString.TrimAllSpace(line);
    ExtendBody(start, ls, line, s);
    ExtendAfter(start, ls, line);
    assert Body(start, ls, s) + [] == Body(start, ls, s);
  }

  /** A "Description:" line opens no section, unless it holds one of the two story markers. */
  lemma DescriptionLineNoHeader(line: string)
    requires JsString.StartsWith(line, "Description:")
    requires !JsString.Contains(JsString.Lower(line), IWantMarker) && !JsString.Contains(JsString.Lower(line), SoThatMarker)
    ensures HeaderOf(line).None?
  {
    assert line[0] == 'D';
    assert !JsString.StartsWith(line, SummaryHeader) by { assert SummaryHeader[0] == 'E'; }
    assert !JsString.StartsWith(line, DescriptionHeader) by { assert DescriptionHeader[0] == 'B'; }
    assert !JsString.StartsWith(line, CriteriaHeader) by { assert CriteriaHeader[0] == 'A'; }
  }

  /** While the summary section is open, a line that opens no section is dropped. */
  lemma DroppedUnderSummary(ls: seq<string>, line: string, s: Section)
    requires After(None, ls) == Some(Summary) && s != Summary
    requires HeaderOf(line).None?
    ensures After(None, ls + [line]) == Some(Summary)
    ensures Body(None, ls + [line], s) == Body(None, ls, s)
    ensures SummaryOf("", ls + [line]) == SummaryOf("", ls)
  {
    ExtendBody(None, ls, line, s);
    ExtendAfter(None, ls, line);
    ExtendSummary("", ls, line);
    assert Body(None, ls, s) + [] == Body(None, ls, s);
  }

  lemma {:induction false} JoinSnoc(parts: seq<string>, x: string, sep: string)
    requires parts != []
    ensures JsString.Join(parts + [x], sep) == JsString.Join(parts, sep) + sep + x
  {
    if |parts| == 1 {
      assert (parts + [x])[1..] == [x];
    } else {
      assert (parts + [x])[1..] == parts[1..] + [x];
      JoinSnoc(parts[1..], x, sep);
    }
  }

  /** The accumulated text of a section is its lines joined by newlines, plus one final newline. */
  lemma {:induction false} LinesJoin(body: seq<string>)
    ensures Lines(body) == if body == [] then "" else JsString.Join(body, "\n") + "\n"
  {
    if body != [] {
      var init := body[..|body| - 1];
      var x := body[|body| - 1];
      assert body == init + [x];
      LinesJoin(init);
      assert Lines(body) == Lines(init) + x + "\n";
      if init != [] {
        JoinSnoc(init, x, "\n");
        var j := JsString.Join(init, "\n");
        assert Lines(init) + x + "\n" == (j + "\n" + x) + "\n";
      } else {
        assert JsString.Join(body, "\n") == x;
      }
    }
  }

  lemma TrimLines(body: seq<string>)
    ensures JsString.Trim(Lines(body)) == JsString.Trim(JsString.Join(body, "\n"))
  {
    LinesJoin(body);
    if body != [] {
      JsString.TrimAppendSpace(JsString.Join(body, "\n"), "\n");
    }
  }

  /** Each section but the summary is its body lines joined by newlines, trimmed. */
  lemma SectionIsJoinedBody(content: string)
    ensures var ls := JsString.Split(content, '\n');
      && Parsed(content).description == JsString.Trim(JsString.Join(Body(None, ls, Description), "\n"))
      && Parsed(content).iWant == JsString.Trim(JsString.Join(Body(None, ls, IWant), "\n"))
      && Parsed(content).soThat == JsString.Trim(JsString.Join(Body(None, ls, SoThat), "\n"))
      && Parsed(content).acceptanceCriteria == JsString.Trim(JsString.Join(Body(None, ls, AcceptanceCriteria), "\n"))
  {
    var ls := JsString.Split(content, '\n');
    TrimLines(Body(None, ls, Description));
    TrimLines(Body(None, ls, IWant));
    TrimLines(Body(None, ls, SoThat));
    TrimLines(Body(None, ls, AcceptanceCriteria));
  }

  /** Empty text gives five empty fields. */
  lemma EmptyContent()
    ensures Parsed("") == Sections("", "", "", "", "")
  {
    assert JsString.Split("", '\n') == [""];
    BlankLineIgnored(None, [], "", Description);
    BlankLineIgnored(None, [], "", IWant);
    BlankLineIgnored(None, [], "", SoThat);
    BlankLineIgnored(None, [], "", AcceptanceCriteria);
    assert [] + [""] == [""];
  }
}
