/**
 * `TextProcessor` of text_processor.py: the blank-input guard and result shaping of
 * `process_ocr_text`, the line-oriented section parser `_parse_response` for the LLM reply,
 * and the sentence-grouping loop of `_auto_segment` (specified in module Segmenter).
 * The chat-completion request itself is an input: the reply it produced.
 */
module TextProcessing {
  import opened Common
  import opened Strings
  import opened Segmenter

  /** The default `sentences_per_segment` of `_auto_segment`. */
  const DefaultSentencesPerSegment := 2

  /* ---------------------------------------------------------------- _auto_segment */

  /** `_auto_segment`: the sentence loop, then the last partial segment and the whole-text fallback. */
  method AutoSegmentLoop(text: string, sentencesPerSegment: int) returns (segments: seq<string>)
    ensures segments == AutoSegment(text, sentencesPerSegment)
  {
    if text == [] {
      return [];
    }
    var sentences := RegexSplit(text);
    var current;
    segments, current := GroupSentences(sentences, sentencesPerSegment);
    if Strip(current) != [] {
      segments := segments + [Strip(current)];
    }
    if segments == [] {
      segments := [Strip(text)];
    }
  }

  /**
   * The loop of `_auto_segment` over the `re.split` pieces, two at a time: the emitted
   * segments and the segment still being built are those of the sentence fold.
   */
  method GroupSentences(sentences: seq<string>, sentencesPerSegment: int) returns (segments: seq<string>, current: string)
    ensures var st := SegFold(Sentences(sentences), sentencesPerSegment);
            segments == st.segments && current == st.current
  {
    ghost var ss := Sentences(sentences);
    segments := [];
    current := "";
    var count: nat := 0;
    var i := 0;
    ghost var j := 0;
    while i < |sentences|
      invariant 0 <= j <= |ss| && i == 2 * j
      invariant SegState(segments, current, count) == SegFold(ss[..j], sentencesPerSegment)
    {
      ghost var before := SegState(segments, current, count);
      var sentence := Strip(sentences[i]);
      if i + 1 < |sentences| {
        sentence := sentence + sentences[i + 1];
      }
      assert sentence == ss[j] by {
        SentencesAt(sentences, j);
      }
      assert SegFold(ss[..j + 1], sentencesPerSegment) == SegStep(before, sentence, sentencesPerSegment) by {
        SegFoldPrefix(ss, j, sentencesPerSegment);
      }
      if sentence != [] {
        current := if current != [] then current + sentence else sentence;
        assert current == before.current + sentence;
        count := count + 1;
        if count >= sentencesPerSegment {
          segments := segments + [Strip(current)];
          current := "";
          count := 0;
        }
      }
      assert SegState(segments, current, count) == SegStep(before, sentence, sentencesPerSegment);
      i := i + 2;
      j := j + 1;
    }
    assert ss[..j] == ss;
  }

  /* ------------------------------------------------------------- _parse_response */

  /** The sections of the reply; `current_section = None` is `None`. */
  datatype Section = InstructionSection | MainSection | SegmentsSection | JapaneseSection | ChineseSection

  /**
   * Which section a (stripped) line opens, tested in the order of the source:
   * 指导语, then 正文 without 分段, then 分段, then the Japanese and the Chinese headers.
   */
  function HeaderOf(line: string): (h: Option<Section>)
    ensures h == None ==> !Contains(line, "指导语") && !Contains(line, "分段")
                          && !Contains(line, "正文") && !Contains(line, "中文翻译")
  {
    if Contains(line, "指导语") then Some(InstructionSection)
    else if Contains(line, "正文") && !Contains(line, "分段") then Some(MainSection)
    else if Contains(line, "分段") then Some(SegmentsSection)
    else if Contains(line, "日语正文") || Contains(line, "日语：") || Contains(line, "日语文本") then
      Some(JapaneseSection)
    else if Contains(line, "中文翻译") || Contains(line, "中文：") || Contains(line, "中文文本") then
      Some(ChineseSection)
    else None
  }

  /**
   * The text a header line carries after its first full-width colon, or after its first
   * ASCII colon when it has no full-width one, stripped; `None` when it has no colon.
   */
  function InlineValue(line: string): (v: Option<string>)
    ensures v.Some? <==> ('：' in line || ':' in line)
    ensures v.Some? ==> Strip(v.value) == v.value && |v.value| < |line|
    ensures '：' in line ==> v == Some(Strip(AfterFirst(line, '：')))
    ensures '：' !in line && ':' in line ==> v == Some(Strip(AfterFirst(line, ':')))
  {
    if '：' in line then
      var r := AfterFirst(line, '：');
      StripIdempotent(r);
      Some(Strip(r))
    else if ':' in line then
      var r := AfterFirst(line, ':');
      StripIdempotent(r);
      Some(Strip(r))
    else None
  }

  /** The parser's variables: `current_section` and the five accumulators. */
  datatype ParseState = ParseState(
    section: Option<Section>,
    instruction: string,
    mainText: string,
    segments: seq<string>,
    japanese: string,
    chinese: string)

  const InitialState := ParseState(None, "", "", [], "", "")

  /** `acc += sep + line` when `acc` is non-empty, `acc = line` otherwise. */
  function AppendLine(acc: string, line: string, sep: string): (r: string)
    ensures r == [] <==> acc == [] && line == []
  {
    if acc != [] then acc + sep + line else line
  }

  /** A segment line is kept unless it looks like a `[placeholder]`. */
  predicate KeptSegment(line: string) {
    !StartsWith(line, "[") && !EndsWith(line, "]")
  }

  /** A non-empty content line, added to the current section. */
  function AddContent(st: ParseState, line: string): ParseState {
    match st.section
    case None => st
    case Some(InstructionSection) => st.(instruction := AppendLine(st.instruction, line, " "))
    case Some(MainSection) => st.(mainText := AppendLine(st.mainText, line, "\n"))
    case Some(SegmentsSection) =>
      if KeptSegment(line) then st.(segments := st.segments + [line]) else st
    case Some(JapaneseSection) => st.(japanese := AppendLine(st.japanese, line, "\n"))
    case Some(ChineseSection) => st.(chinese := AppendLine(st.chinese, line, "\n"))
  }

  /** One iteration of the line loop. */
  function ParseLine(st: ParseState, raw: string): ParseState {
    var line := Strip(raw);
    match HeaderOf(line)
    case Some(InstructionSection) =>
      st.(section := Some(InstructionSection), instruction := InlineValue(line).GetOr(st.instruction))
    case Some(MainSection) =>
      st.(section := Some(MainSection), mainText := InlineValue(line).GetOr(st.mainText))
    case Some(SegmentsSection) => st.(section := Some(SegmentsSection))
    case Some(JapaneseSection) =>
      st.(section := Some(JapaneseSection), japanese := InlineValue(line).GetOr(st.japanese))
    case Some(ChineseSection) =>
      st.(section := Some(ChineseSection), chinese := InlineValue(line).GetOr(st.chinese))
    case None => if line == [] then st else AddContent(st, line)
  }

  /** The parser state after `lines`, processed first to last from `st`. */
  function ParseFrom(st: ParseState, lines: seq<string>): ParseState
    decreases |lines|
  {
    if lines == [] then st
    else ParseLine(ParseFrom(st, lines[..|lines| - 1]), lines[|lines| - 1])
  }

  /** The dictionary `_parse_response` returns. */
  datatype Parsed = Parsed(
    instruction: string,
    mainText: string,
    segments: seq<string>,
    japaneseText: string,
    chineseTranslation: string)

  /** `[s.strip() for s in segments if s.strip()]` */
  function CleanSegments(segments: seq<string>): (r: seq<string>)
    ensures |r| <= |segments|
    ensures forall k :: 0 <= k < |r| ==> r[k] != [] && Strip(r[k]) == r[k]
    decreases |segments|
  {
    if segments == [] then []
    else
      var s := Strip(segments[|segments| - 1]);
      StripIdempotent(segments[|segments| - 1]);
      CleanSegments(segments[..|segments| - 1]) + (if s != [] then [s] else [])
  }

  /** The fallbacks after the loop and the final stripping. */
  function Finish(content: string, st: ParseState): Parsed {
    var segments1 :=
      if st.mainText != [] && st.segments == [] then AutoSegment(st.mainText, DefaultSentencesPerSegment)
      else st.segments;
    var main2 := if st.mainText == [] && st.japanese != [] then st.japanese else st.mainText;
    var segments2 :=
      if st.mainText == [] && st.japanese != [] && segments1 == [] then
        AutoSegment(main2, DefaultSentencesPerSegment)
      else segments1;
    var noSections := main2 == [] && st.japanese == [] && st.chinese == [];
    var paragraphs := SplitStr(content, "\n\n");
    var main3 :=
      if !noSections then main2
      else if |paragraphs| >= 2 then Strip(paragraphs[0])
      else Strip(content);
    var japanese3 := if noSections then main3 else st.japanese;
    var chinese3 := if noSections && |paragraphs| >= 2 then Strip(paragraphs[1]) else st.chinese;
    var segments3 := if noSections then AutoSegment(main3, DefaultSentencesPerSegment) else segments2;
    Parsed(
      Strip(st.instruction),
      Strip(main3),
      CleanSegments(segments3),
      if japanese3 != [] then Strip(japanese3) else Strip(main3),
      Strip(chinese3))
  }

  /** What `_parse_response(content)` returns. */
  function ParseResponse(content: string): (r: Parsed)
    ensures forall k :: 0 <= k < |r.segments| ==> r.segments[k] != [] && Strip(r.segments[k]) == r.segments[k]
  {
    Finish(content, ParseFrom(InitialState, Split(content, '\n')))
  }

  /** Parsing one more line is one more loop step. */
  lemma ParseFromPrefix(st: ParseState, lines: seq<string>, i: nat)
    requires i < |lines|
    ensures ParseFrom(st, lines[..i + 1]) == ParseLine(ParseFrom(st, lines[..i]), lines[i])
  {
    assert lines[..i + 1][..i] == lines[..i];
  }

  /** The body of the line loop of `_parse_response`, on the loop variables in `st`. */
  method ParseLineStep(st: ParseState, raw: string) returns (next: ParseState)
    ensures next == ParseLine(st, raw)
  {
    var section, instruction, mainText, segments, japanese, chinese :=
      st.section, st.instruction, st.mainText, st.segments, st.japanese, st.chinese;
    var line := Strip(raw);
    if Contains(line, "指导语") {
      section := Some(InstructionSection);
      if '：' in line || ':' in line {
        var sep := if '：' in line then '：' else ':';
        instruction := Strip(AfterFirst(line, sep));
      }
    } else if Contains(line, "正文") && !Contains(line, "分段") {
      section := Some(MainSection);
      if '：' in line || ':' in line {
        var sep := if '：' in line then '：' else ':';
        mainText := Strip(AfterFirst(line, sep));
      }
    } else if Contains(line, "分段") {
      section := Some(SegmentsSection);
    } else if Contains(line, "日语正文") || Contains(line, "日语：") || Contains(line, "日语文本") {
      section := Some(JapaneseSection);
      if '：' in line || ':' in line {
        var sep := if '：' in line then '：' else ':';
        japanese := Strip(AfterFirst(line, sep));
      }
    } else if Contains(line, "中文翻译") || Contains(line, "中文：") || Contains(line, "中文文本") {
      section := Some(ChineseSection);
      if '：' in line || ':' in line {
        var sep := if '：' in line then '：' else ':';
        chinese := Strip(AfterFirst(line, sep));
      }
    } else if section == Some(InstructionSection) && line != [] {
      instruction := if instruction != [] then instruction + " " + line else line;
    } else if section == Some(MainSection) && line != [] {
      mainText := if mainText != [] then mainText + "\n" + line else line;
    } else if section == Some(SegmentsSection) && line != [] {
      if line != [] && !StartsWith(line, "[") && !EndsWith(line, "]") {
        segments := segments + [line];
      }
    } else if section == Some(JapaneseSection) && line != [] {
      japanese := if japanese != [] then japanese + "\n" + line else line;
    } else if section == Some(ChineseSection) && line != [] {
      chinese := if chinese != [] then chinese + "\n" + line else line;
    }
    next := ParseState(section, instruction, mainText, segments, japanese, chinese);
  }

  /** The line loop of `_parse_response`. */
  method ParseLines(lines: seq<string>) returns (st: ParseState)
    ensures st == ParseFrom(InitialState, lines)
  {
    st := InitialState;
    var i := 0;
    while i < |lines|
      invariant 0 <= i <= |lines|
      invariant st == ParseFrom(InitialState, lines[..i])
    {
      ParseFromPrefix(InitialState, lines, i);
      st := ParseLineStep(st, lines[i]);
      i := i + 1;
    }
    assert lines[..i] == lines;
  }

  /** The fallbacks of `_parse_response` after the line loop, and its result. */
  method FinishParse(content: string, st: ParseState) returns (r: Parsed)
    ensures r == Finish(content, st)
  {
    var mainText, segments, japanese, chinese := st.mainText, st.segments, st.japanese, st.chinese;
    if mainText != [] && segments == [] {
      segments := AutoSegmentLoop(mainText, DefaultSentencesPerSegment);
    }
    if mainText == [] && japanese != [] {
      mainText := japanese;
      if segments == [] {
        segments := AutoSegmentLoop(mainText, DefaultSentencesPerSegment);
      }
    }
    if mainText == [] && japanese == [] && chinese == [] {
      var paragraphs := SplitStr(content, "\n\n");
      if |paragraphs| >= 2 {
        mainText := Strip(paragraphs[0]);
        japanese := mainText;
        chinese := Strip(paragraphs[1]);
        segments := AutoSegmentLoop(mainText, DefaultSentencesPerSegment);
      } else {
        mainText := Strip(content);
        japanese := mainText;
        segments := AutoSegmentLoop(mainText, DefaultSentencesPerSegment);
      }
    }
    var cleaned := CleanSegmentsLoop(segments);
    r := Parsed(
      Strip(st.instruction),
      Strip(mainText),
      cleaned,
      if japanese != [] then Strip(japanese) else Strip(mainText),
      Strip(chinese));
  }

  /** The comprehension over one more element. */
  lemma CleanSegmentsPrefix(segments: seq<string>, k: nat)
    requires k < |segments|
    ensures CleanSegments(segments[..k + 1])
            == CleanSegments(segments[..k]) + (if Strip(segments[k]) != [] then [Strip(segments[k])] else [])
  {
    assert segments[..k + 1][..k] == segments[..k];
  }

  /** The list comprehension `[s.strip() for s in segments if s.strip()]`. */
  method CleanSegmentsLoop(segments: seq<string>) returns (cleaned: seq<string>)
    ensures cleaned == CleanSegments(segments)
  {
    cleaned := [];
    var k := 0;
    while k < |segments|
      invariant 0 <= k <= |segments|
      invariant cleaned == CleanSegments(segments[..k])
    {
      CleanSegmentsPrefix(segments, k);
      if Strip(segments[k]) != [] {
        cleaned := cleaned + [Strip(segments[k])];
      }
      k := k + 1;
    }
    assert segments[..k] == segments;
  }

  /** `_parse_response(content)`: the line loop, then the fallbacks. */
  method ParseResponseLoop(content: string) returns (r: Parsed)
    ensures r == ParseResponse(content)
  {
    var lines := Split(content, '\n');
    var st := ParseLines(lines);
    r := FinishParse(content, st);
  }

  /* ------------------------------------------------- properties of _parse_response */

  /**
   * A line holding 日语正文 never opens the Japanese section: it also holds 正文, so it is
   * taken as the main-text header (or as the segments header when it also holds 分段).
   */
  lemma JapaneseBodyHeaderShadowed(line: string)
    requires Contains(line, "日语正文")
    ensures HeaderOf(line) != Some(JapaneseSection)
    ensures !Contains(line, "指导语") ==>
              HeaderOf(line) == if Contains(line, "分段") then Some(SegmentsSection) else Some(MainSection)
  {
    assert "日语" + "正文" + "" == "日语正文";
    ContainsPart(line, "日语", "正文", "");
  }

  /** A line without any of the header's first characters is not a header. */
  lemma NotAHeader(line: string)
    requires '指' !in line && '正' !in line && '分' !in line && '日' !in line && '中' !in line
    ensures HeaderOf(line) == None
  {
    NotContainsFirstChar(line, "指导语");
    NotContainsFirstChar(line, "正文");
    NotContainsFirstChar(line, "分段");
    NotContainsFirstChar(line, "日语正文");
    NotContainsFirstChar(line, "日语：");
    NotContainsFirstChar(line, "日语文本");
    NotContainsFirstChar(line, "中文翻译");
    NotContainsFirstChar(line, "中文：");
    NotContainsFirstChar(line, "中文文本");
  }

  /** A content line as the reply layout has it: stripped, non-empty, one line, not a header. */
  predicate PlainLine(line: string) {
    line != [] && Strip(line) == line && '\n' !in line && HeaderOf(line) == None
  }

  /** Every line of `lines` is a plain content line. */
  predicate PlainLines(lines: seq<string>) {
    forall k :: 0 <= k < |lines| ==> PlainLine(lines[k])
  }

  /**
   * The reply layout the prompt asks for (text_processor.py:65-80), one string per line:
   * each header on its own line, its content lines after it, a blank line between sections.
   */
  function ReplyLines(instruction: seq<string>, main: seq<string>, segments: seq<string>,
                      chinese: seq<string>): seq<string>
  {
    ["指导语："] + instruction + [""] + ["正文："] + main + [""] + ["分段："] + segments + [""]
    + ["中文翻译："] + chinese
  }

  /** Parsing `a + b` is parsing `a`, then `b`. */
  lemma {:induction false} ParseFromAppend(st: ParseState, a: seq<string>, b: seq<string>)
    ensures ParseFrom(st, a + b) == ParseFrom(ParseFrom(st, a), b)
    decreases |b|
  {
    if b == [] {
      assert a + b == a;
    } else {
      var b' := b[..|b| - 1];
      ParseFromAppend(st, a, b');
      assert (a + b)[..|a + b| - 1] == a + b';
    }
  }

  /** A blank line changes nothing. */
  lemma BlankLine(st: ParseState)
    ensures ParseFrom(st, [""]) == st
  {
    assert [""][..0] == [];
    StripOfTrimmed("");
  }

  /** A plain content line is added to the current section. */
  lemma ContentLine(st: ParseState, line: string)
    requires PlainLine(line)
    ensures ParseLine(st, line) == AddContent(st, line)
  {
  }

  /** Parsing one more plain line adds it to the current section. */
  lemma ContentStep(st: ParseState, init: seq<string>, last: string)
    requires PlainLine(last)
    ensures ParseFrom(st, init + [last]) == AddContent(ParseFrom(st, init), last)
  {
    assert (init + [last])[..|init|] == init;
    ContentLine(ParseFrom(st, init), last);
  }

  /** The header line 指导语： opens the instruction section with no inline text. */
  lemma InstructionHeader(st: ParseState)
    ensures ParseFrom(st, ["指导语："]) == st.(section := Some(InstructionSection), instruction := "")
  {
    var h := "指导语：";
    assert [h][..0] == [];
    StripOfTrimmed(h);
    assert StartsWith(h, "指导语");
    assert AfterFirst(h, '：') == [];
    StripOfTrimmed("");
  }

  /** The header line 正文： opens the main-text section with no inline text. */
  lemma MainHeader(st: ParseState)
    ensures ParseFrom(st, ["正文："]) == st.(section := Some(MainSection), mainText := "")
  {
    var h := "正文：";
    assert [h][..0] == [];
    StripOfTrimmed(h);
    NotContainsFirstChar(h, "指导语");
    NotContainsFirstChar(h, "分段");
    assert StartsWith(h, "正文");
    assert AfterFirst(h, '：') == [];
    StripOfTrimmed("");
  }

  /** The header line 分段： opens the segments section. */
  lemma SegmentsHeader(st: ParseState)
    ensures ParseFrom(st, ["分段："]) == st.(section := Some(SegmentsSection))
  {
    var h := "分段：";
    assert [h][..0] == [];
    StripOfTrimmed(h);
    NotContainsFirstChar(h, "指导语");
    NotContainsFirstChar(h, "正文");
    assert StartsWith(h, "分段");
  }

  /** The header line 中文翻译： opens the translation section with no inline text. */
  lemma ChineseHeader(st: ParseState)
    ensures ParseFrom(st, ["中文翻译："]) == st.(section := Some(ChineseSection), chinese := "")
  {
    var h := "中文翻译：";
    assert [h][..0] == [];
    StripOfTrimmed(h);
    NotContainsFirstChar(h, "指导语");
    NotContainsFirstChar(h, "正文");
    NotContainsFirstChar(h, "分段");
    NotContainsFirstChar(h, "日语正文");
    NotContainsFirstChar(h, "日语：");
    NotContainsFirstChar(h, "日语文本");
    assert StartsWith(h, "中文翻译");
    assert AfterFirst(h, '：') == [];
    StripOfTrimmed("");
  }

  /** Plain lines are joined with a space into the instruction. */
  lemma {:induction false} InstructionLines(st: ParseState, lines: seq<string>)
    requires st.section == Some(InstructionSection) && st.instruction == []
    requires PlainLines(lines)
    ensures ParseFrom(st, lines) == st.(instruction := Join(lines, " "))
    decreases |lines|
  {
    if lines != [] {
      var init, last := lines[..|lines| - 1], lines[|lines| - 1];
      assert lines == init + [last];
      InstructionLines(st, init);
      ContentStep(st, init, last);
      if init != [] {
        JoinEnds(init, " ");
      }
      JoinSnoc(init, last, " ");
    }
  }

  /** Plain lines are joined with newlines into the main text. */
  lemma {:induction false} MainLines(st: ParseState, lines: seq<string>)
    requires st.section == Some(MainSection) && st.mainText == []
    requires PlainLines(lines)
    ensures ParseFrom(st, lines) == st.(mainText := Join(lines, "\n"))
    decreases |lines|
  {
    if lines != [] {
      var init, last := lines[..|lines| - 1], lines[|lines| - 1];
      assert lines == init + [last];
      MainLines(st, init);
      ContentStep(st, init, last);
      if init != [] {
        JoinEnds(init, "\n");
      }
      JoinSnoc(init, last, "\n");
    }
  }

  /** Plain lines are joined with newlines into the Chinese translation. */
  lemma {:induction false} ChineseLines(st: ParseState, lines: seq<string>)
    requires st.section == Some(ChineseSection) && st.chinese == []
    requires PlainLines(lines)
    ensures ParseFrom(st, lines) == st.(chinese := Join(lines, "\n"))
    decreases |lines|
  {
    if lines != [] {
      var init, last := lines[..|lines| - 1], lines[|lines| - 1];
      assert lines == init + [last];
      ChineseLines(st, init);
      ContentStep(st, init, last);
      if init != [] {
        JoinEnds(init, "\n");
      }
      JoinSnoc(init, last, "\n");
    }
  }

  /** Plain lines that are not `[placeholders]` each become one segment. */
  lemma {:induction false} SegmentLines(st: ParseState, lines: seq<string>)
    requires st.section == Some(SegmentsSection) && st.segments == []
    requires PlainLines(lines) && forall k :: 0 <= k < |lines| ==> KeptSegment(lines[k])
    ensures ParseFrom(st, lines) == st.(segments := lines)
    decreases |lines|
  {
    if lines != [] {
      var init, last := lines[..|lines| - 1], lines[|lines| - 1];
      assert lines == init + [last];
      SegmentLines(st, init);
      ContentStep(st, init, last);
    }
  }

  /** Joined plain lines are already stripped. */
  lemma JoinedStripped(lines: seq<string>, sep: string)
    requires PlainLines(lines)
    ensures Strip(Join(lines, sep)) == Join(lines, sep)
  {
    if lines != [] {
      JoinEnds(lines, sep);
      var first, last := lines[0], lines[|lines| - 1];
      assert !IsSpace(first[0]) && !IsSpace(last[|last| - 1]) by {
        assert PlainLine(first) && PlainLine(last);
        StripSpec(first);
        StripSpec(last);
      }
      StripOfTrimmed(Join(lines, sep));
    } else {
      StripOfTrimmed([]);
    }
  }

  /** Cleaning segments that are already stripped and non-empty keeps them all. */
  lemma {:induction false} CleanSegmentsKeeps(segments: seq<string>)
    requires PlainLines(segments)
    ensures CleanSegments(segments) == segments
    decreases |segments|
  {
    if segments != [] {
      CleanSegmentsKeeps(segments[..|segments| - 1]);
      assert segments == segments[..|segments| - 1] + [segments[|segments| - 1]];
    }
  }

  /**
   * The parser reads back what the reply layout holds: for plain content lines, with at least
   * one main-text line and one segment line, the instruction lines come back joined with
   * spaces, the main text and the translation joined with newlines, the segments one per
   * line, and the Japanese text falls back to the main text.
   */
  lemma ReplyRoundTrip(instruction: seq<string>, main: seq<string>, segments: seq<string>,
                       chinese: seq<string>)
    requires PlainLines(instruction) && PlainLines(main) && PlainLines(segments) && PlainLines(chinese)
    requires forall k :: 0 <= k < |segments| ==> KeptSegment(segments[k])
    requires main != [] && segments != []
    ensures ParseResponse(Join(ReplyLines(instruction, main, segments, chinese), "\n"))
            == Parsed(Join(instruction, " "), Join(main, "\n"), segments, Join(main, "\n"),
                      Join(chinese, "\n"))
  {
    var lines := ReplyLines(instruction, main, segments, chinese);
    var content := Join(lines, "\n");
    ReplyLinesOneLine(instruction, main, segments, chinese);
    JoinSplit(lines, '\n');
    var st := ReplyState(instruction, main, segments, chinese);
    assert ParseResponse(content) == Finish(content, st);
    JoinEnds(main, "\n");
    FinishSections(content, st);
    JoinedStripped(instruction, " ");
    JoinedStripped(main, "\n");
    JoinedStripped(chinese, "\n");
    CleanSegmentsKeeps(segments);
  }

  /** No line of the reply layout holds a line break. */
  lemma ReplyLinesOneLine(instruction: seq<string>, main: seq<string>, segments: seq<string>,
                          chinese: seq<string>)
    requires PlainLines(instruction) && PlainLines(main) && PlainLines(segments) && PlainLines(chinese)
    ensures var lines := ReplyLines(instruction, main, segments, chinese);
            |lines| >= 1 && forall k :: 0 <= k < |lines| ==> '\n' !in lines[k]
  {
  }

  /**
   * When the loop found both the main text and segment lines, no fallback applies: the
   * fields are the accumulators stripped, the segments cleaned, and the Japanese text is the
   * main text when no Japanese section was read.
   */
  lemma FinishSections(content: string, st: ParseState)
    requires st.mainText != [] && st.segments != []
    ensures Finish(content, st)
            == Parsed(Strip(st.instruction), Strip(st.mainText), CleanSegments(st.segments),
                      if st.japanese != [] then Strip(st.japanese) else Strip(st.mainText),
                      Strip(st.chinese))
  {
  }

  /**
   * A main text without segment lines is segmented automatically, two sentences per
   * segment, and the segments cleaned.
   */
  lemma FinishBodyWithoutSegments(content: string, st: ParseState)
    requires st.mainText != [] && st.segments == []
    ensures var r := Finish(content, st);
            && r.mainText == Strip(st.mainText)
            && r.segments == CleanSegments(AutoSegment(st.mainText, DefaultSentencesPerSegment))
            && r.instruction == Strip(st.instruction) && r.chineseTranslation == Strip(st.chinese)
  {
  }

  /**
   * Without a main text the Japanese text stands in for it, and is segmented automatically
   * when there were no segment lines.
   */
  lemma FinishJapaneseBody(content: string, st: ParseState)
    requires st.mainText == [] && st.japanese != []
    ensures var r := Finish(content, st);
            && r.mainText == Strip(st.japanese) && r.japaneseText == Strip(st.japanese)
            && r.segments == CleanSegments(if st.segments == [] then AutoSegment(st.japanese, DefaultSentencesPerSegment)
                                           else st.segments)
            && r.instruction == Strip(st.instruction) && r.chineseTranslation == Strip(st.chinese)
  {
  }

  /** Without a Japanese section the Japanese text is the main text. */
  lemma FinishJapaneseDefault(content: string, st: ParseState)
    requires st.japanese == []
    ensures Finish(content, st).japaneseText == Finish(content, st).mainText
  {
  }

  /** The text a reply without sections falls back to: its first paragraph, or all of it. */
  function FallbackMain(content: string): string {
    var paragraphs := SplitStr(content, "\n\n");
    if |paragraphs| >= 2 then Strip(paragraphs[0]) else Strip(content)
  }

  /** The translation a reply without sections falls back to: its second paragraph, or none. */
  function FallbackChinese(content: string): string {
    var paragraphs := SplitStr(content, "\n\n");
    if |paragraphs| >= 2 then Strip(paragraphs[1]) else ""
  }

  /**
   * With no main, Japanese or Chinese text after the loop, a reply of two or more paragraphs
   * gives its first as main and Japanese text and its second as translation; any other reply
   * is taken whole as main and Japanese text. The segments come from the main text.
   */
  lemma FinishNoSections(content: string, st: ParseState)
    requires st.mainText == [] && st.japanese == [] && st.chinese == []
    ensures Finish(content, st)
            == Parsed(Strip(st.instruction), FallbackMain(content),
                      CleanSegments(AutoSegment(FallbackMain(content), DefaultSentencesPerSegment)),
                      FallbackMain(content), FallbackChinese(content))
  {
    var paragraphs := SplitStr(content, "\n\n");
    StripIdempotent(content);
    if |paragraphs| >= 2 {
      StripIdempotent(paragraphs[0]);
      StripIdempotent(paragraphs[1]);
    }
    assert Strip([]) == [];
  }

  /** Lines that open no section leave the parser where it started. */
  lemma {:induction false} HeaderlessLines(lines: seq<string>)
    requires forall k :: 0 <= k < |lines| ==> HeaderOf(Strip(lines[k])) == None
    ensures ParseFrom(InitialState, lines) == InitialState
    decreases |lines|
  {
    if lines != [] {
      HeaderlessLines(lines[..|lines| - 1]);
    }
  }

  /** A reply with no header line at all is parsed by the paragraph fallback alone. */
  lemma HeaderlessReply(content: string)
    requires forall k :: 0 <= k < |Split(content, '\n')| ==> HeaderOf(Strip(Split(content, '\n')[k])) == None
    ensures ParseResponse(content)
            == Parsed("", FallbackMain(content),
                      CleanSegments(AutoSegment(FallbackMain(content), DefaultSentencesPerSegment)),
                      FallbackMain(content), FallbackChinese(content))
  {
    HeaderlessLines(Split(content, '\n'));
    FinishNoSections(content, InitialState);
    assert Strip([]) == [];
  }

  /** The parser state after the reply layout's lines. */
  lemma ReplyState(instruction: seq<string>, main: seq<string>, segments: seq<string>,
                   chinese: seq<string>) returns (st: ParseState)
    requires PlainLines(instruction) && PlainLines(main) && PlainLines(segments) && PlainLines(chinese)
    requires forall k :: 0 <= k < |segments| ==> KeptSegment(segments[k])
    ensures st == ParseFrom(InitialState, ReplyLines(instruction, main, segments, chinese))
    ensures st == ParseState(Some(ChineseSection), Join(instruction, " "), Join(main, "\n"),
                             segments, "", Join(chinese, "\n"))
  {
    var s0 := InitialState;
    var l1 := ["指导语："];
    InstructionHeader(s0);
    var s1 := s0.(section := Some(InstructionSection), instruction := "");
    var l2 := l1 + instruction;
    ParseFromAppend(s0, l1, instruction);
    InstructionLines(s1, instruction);
    var s2 := s1.(instruction := Join(instruction, " "));
    var l3 := l2 + [""];
    ParseFromAppend(s0, l2, [""]);
    BlankLine(s2);
    var l4 := l3 + ["正文："];
    ParseFromAppend(s0, l3, ["正文："]);
    MainHeader(s2);
    var s4 := s2.(section := Some(MainSection), mainText := "");
    var l5 := l4 + main;
    ParseFromAppend(s0, l4, main);
    MainLines(s4, main);
    var s5 := s4.(mainText := Join(main, "\n"));
    var l6 := l5 + [""];
    ParseFromAppend(s0, l5, [""]);
    BlankLine(s5);
    var l7 := l6 + ["分段："];
    ParseFromAppend(s0, l6, ["分段："]);
    SegmentsHeader(s5);
    var s7 := s5.(section := Some(SegmentsSection));
    var l8 := l7 + segments;
    ParseFromAppend(s0, l7, segments);
    SegmentLines(s7, segments);
    var s8 := s7.(segments := segments);
    var l9 := l8 + [""];
    ParseFromAppend(s0, l8, [""]);
    BlankLine(s8);
    var l10 := l9 + ["中文翻译："];
    ParseFromAppend(s0, l9, ["中文翻译："]);
    ChineseHeader(s8);
    var s10 := s8.(section := Some(ChineseSection), chinese := "");
    ParseFromAppend(s0, l10, chinese);
    ChineseLines(s10, chinese);
    st := s10.(chinese := Join(chinese, "\n"));
  }

  /* ------------------------------------------------------------- process_ocr_text */

  /** What the chat-completion request produced. */
  datatype LlmReply =
    | RequestFailed(reason: string)          // a `requests` exception (including a non-2xx status)
    | Replied(choiceContents: seq<string>)   // `choices[i].message.content`; [] when absent or empty
    | Broken(reason: string)                 // any other exception while reading the reply

  /** The dictionary `process_ocr_text` returns. */
  datatype Processed = Processed(
    japaneseText: string,
    chineseTranslation: string,
    instruction: string,
    mainText: string,
    segments: seq<string>,
    rawResponse: Option<string>,
    error: Option<string>)

  /** A result with every text field empty and the given error. */
  function Failed(message: string): (p: Processed)
    ensures p.error == Some(message) && p.segments == [] && p.rawResponse == None
  {
    Processed("", "", "", "", [], None, Some(message))
  }

  /** `process_ocr_text(raw, reply)` */
  function ProcessOcrText(raw: string, reply: LlmReply): (p: Processed)
    ensures IsBlank(raw) ==> p == Failed("输入文本为空")
    ensures !IsBlank(raw) && reply.RequestFailed? ==> p == Failed("API请求失败: " + reply.reason)
    ensures !IsBlank(raw) && reply.Broken? ==> p == Failed("处理失败: " + reply.reason)
    ensures !IsBlank(raw) && reply.Replied? && reply.choiceContents == [] ==> p == Failed("API返回格式异常")
    ensures p.error == None <==> !IsBlank(raw) && reply.Replied? && |reply.choiceContents| > 0
    ensures p.error == None ==>
              var parsed := ParseResponse(reply.choiceContents[0]);
              && p.rawResponse == Some(reply.choiceContents[0])
              && p.japaneseText == parsed.japaneseText && p.chineseTranslation == parsed.chineseTranslation
              && p.instruction == parsed.instruction && p.mainText == parsed.mainText
              && p.segments == parsed.segments
  {
    if IsBlank(raw) then Failed("输入文本为空")
    else
      match reply
      case RequestFailed(e) => Failed("API请求失败: " + e)
      case Broken(e) => Failed("处理失败: " + e)
      case Replied(contents) =>
        if |contents| > 0 then
          var content := contents[0];
          var parsed := ParseResponse(content);
          Processed(parsed.japaneseText, parsed.chineseTranslation, parsed.instruction,
                    parsed.mainText, parsed.segments, Some(content), None)
        else Failed("API返回格式异常")
  }
}
