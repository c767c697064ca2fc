/**
 * Sentence grouping of `TextProcessor._auto_segment` (text_processor.py): the text is
 * split after each of 。！？ and newline, as `re.split(r'([。！？\n])', text)` does, and the
 * non-empty sentences are grouped `sentences_per_segment` at a time.
 */
module Segmenter {
  import opened Strings

  /** The characters of the capture group `[。！？\n]`. */
  predicate IsTerminator(c: char) {
    c == '。' || c == '！' || c == '？' || c == '\n'
  }

  /** The first terminator in `s`, or -1. */
  function FindTerminator(s: string): (r: int)
    ensures -1 <= r < |s|
    ensures r >= 0 ==> IsTerminator(s[r])
    ensures forall i :: 0 <= i < (if r == -1 then |s| else r) ==> !IsTerminator(s[i])
  {
    if |s| == 0 then -1
    else if IsTerminator(s[0]) then 0
    else
      var k := FindTerminator(s[1..]);
      if k == -1 then -1 else k + 1
  }

  /** True when no character of `s` is a terminator. */
  predicate NoTerminator(s: string) {
    forall i :: 0 <= i < |s| ==> !IsTerminator(s[i])
  }

  /**
   * The shape of a `re.split` result with one capture group: a terminator-free piece, then
   * pairs of (captured terminator, terminator-free piece).
   */
  predicate Alternating(parts: seq<string>)
    decreases |parts|
  {
    && |parts| % 2 == 1
    && NoTerminator(parts[0])
    && (|parts| > 1 ==> |parts[1]| == 1 && IsTerminator(parts[1][0]) && Alternating(parts[2..]))
  }

  /**
   * `re.split(r'([。！？\n])', text)`: the pieces between terminators at even positions,
   * each terminator (kept by the capture group) at the odd position after its piece.
   */
  function RegexSplit(text: string): (parts: seq<string>)
    ensures |parts| >= 1
    decreases |text|
  {
    var k := FindTerminator(text);
    if k == -1 then [text]
    else [text[..k], [text[k]]] + RegexSplit(text[k + 1..])
  }

  /** The split alternates terminator-free pieces and single captured terminators. */
  lemma {:induction false} RegexSplitShape(text: string)
    ensures Alternating(RegexSplit(text))
    decreases |text|
  {
    var k := FindTerminator(text);
    if k != -1 {
      var rest := RegexSplit(text[k + 1..]);
      RegexSplitShape(text[k + 1..]);
      var parts := [text[..k], [text[k]]] + rest;
      assert NoTerminator(text[..k]) by {
        forall i | 0 <= i < k ensures !IsTerminator(text[..k][i]) { assert text[..k][i] == text[i]; }
      }
      assert parts[2..] == rest;
    } else {
      assert NoTerminator(text);
    }
  }

  /** Splitting loses nothing: joining the parts gives the text back. */
  lemma {:induction false} RegexSplitJoin(text: string)
    ensures Concat(RegexSplit(text)) == text
    decreases |text|
  {
    var k := FindTerminator(text);
    if k != -1 {
      var head, t, tail := text[..k], [text[k]], text[k + 1..];
      var rest := RegexSplit(tail);
      assert RegexSplit(text) == [head, t] + rest;
      RegexSplitJoin(tail);
      ConcatAppend([head, t], rest);
      assert Concat([head, t]) == head + t by {
        assert [head, t][1..] == [t];
        assert Concat([t]) == t + Concat([]);
      }
      assert text == head + t + tail;
    }
  }

  /** Splitting a text that starts with a terminator-free piece and a terminator. */
  lemma RegexSplitCons(a: string, t: char, rest: string)
    requires NoTerminator(a) && IsTerminator(t)
    ensures RegexSplit(a + [t] + rest) == [a, [t]] + RegexSplit(rest)
  {
    var s := a + [t] + rest;
    assert s[|a|] == t;
    assert FindTerminator(s) == |a|;
    assert s[..|a|] == a;
    assert s[|a| + 1..] == rest;
  }

  /** The sentence the loop builds at even position `i`: the stripped piece plus its terminator. */
  function SentenceAt(parts: seq<string>, i: nat): string
    requires i < |parts|
  {
    Strip(parts[i]) + (if i + 1 < |parts| then parts[i + 1] else "")
  }

  /** All sentences of a split, one per even position, in text order (some may be empty). */
  function Sentences(parts: seq<string>): (ss: seq<string>)
    ensures |parts| <= 2 * |ss| <= |parts| + 1
    decreases |parts|
  {
    if parts == [] then []
    else [SentenceAt(parts, 0)] + Sentences(if |parts| >= 2 then parts[2..] else [])
  }

  /** Sentence `j` is built from the piece at position `2j` and the terminator after it. */
  lemma {:induction false} SentencesAt(parts: seq<string>, j: nat)
    requires 2 * j < |parts|
    ensures Sentences(parts)[j] == SentenceAt(parts, 2 * j)
    decreases j
  {
    if j > 0 {
      var tail := parts[2..];
      assert Sentences(parts) == [SentenceAt(parts, 0)] + Sentences(tail);
      SentencesAt(tail, j - 1);
      SentenceAtShift(parts, j);
    }
  }

  /** Dropping the first piece and terminator moves every sentence one place forward. */
  lemma SentenceAtShift(parts: seq<string>, j: nat)
    requires 0 < j && 2 * j < |parts|
    ensures SentenceAt(parts[2..], 2 * (j - 1)) == SentenceAt(parts, 2 * j)
  {
    var tail := parts[2..];
    assert tail[2 * (j - 1)] == parts[2 * j];
    assert 2 * (j - 1) + 1 < |tail| ==> tail[2 * (j - 1) + 1] == parts[2 * j + 1];
  }

  /** The effective group size: `sentence_count >= n` holds after every sentence when n <= 1. */
  function GroupSize(n: int): (g: nat)
    ensures g >= 1 && (n >= 1 ==> g == n)
  {
    if n < 1 then 1 else n
  }

  /** The loop state: emitted segments, the segment being built, and its sentence count. */
  datatype SegState = SegState(segments: seq<string>, current: string, count: nat)

  /** One loop step on one sentence. */
  function SegStep(st: SegState, sentence: string, n: int): SegState {
    if sentence == "" then st
    else
      var cur := st.current + sentence;
      if st.count + 1 >= n then SegState(st.segments + [Strip(cur)], "", 0)
      else SegState(st.segments, cur, st.count + 1)
  }

  /** The loop state after all `sentences`, processed first to last. */
  function SegFold(sentences: seq<string>, n: int): SegState
    decreases |sentences|
  {
    if sentences == [] then SegState([], "", 0)
    else SegStep(SegFold(sentences[..|sentences| - 1], n), sentences[|sentences| - 1], n)
  }

  /** Folding one more sentence is one more loop step. */
  lemma SegFoldPrefix(xs: seq<string>, j: nat, n: int)
    requires j < |xs|
    ensures SegFold(xs[..j + 1], n) == SegStep(SegFold(xs[..j], n), xs[j], n)
  {
    assert xs[..j + 1][..j] == xs[..j];
  }

  /** After the loop: the last segment if it is not blank, and the whole text if nothing was emitted. */
  function Finalize(st: SegState, text: string): seq<string> {
    var segs := if Strip(st.current) != [] then st.segments + [Strip(st.current)] else st.segments;
    if segs == [] then [Strip(text)] else segs
  }

  /** What `_auto_segment(text, n)` returns. */
  function AutoSegment(text: string, n: int): seq<string> {
    if text == [] then [] else Finalize(SegFold(Sentences(RegexSplit(text)), n), text)
  }

  /** `_auto_segment('')` is empty and every non-empty text yields at least one segment. */
  lemma AutoSegmentEmptyIff(text: string, n: int)
    ensures AutoSegment(text, n) == [] <==> text == []
  {
  }

  /** The non-empty sentences, in order: the ones the loop counts. */
  function NonEmpty(ss: seq<string>): (r: seq<string>)
    ensures |r| <= |ss|
    ensures forall k :: 0 <= k < |r| ==> r[k] != []
    decreases |ss|
  {
    if ss == [] then []
    else if ss[|ss| - 1] == [] then NonEmpty(ss[..|ss| - 1])
    else NonEmpty(ss[..|ss| - 1]) + [ss[|ss| - 1]]
  }

  /** The complete groups of `g` consecutive sentences of `ne`, front to back. */
  function Chunks(ne: seq<string>, g: nat): (cs: seq<seq<string>>)
    requires g >= 1
    ensures forall k :: 0 <= k < |cs| ==> |cs[k]| == g
    decreases |ne|
  {
    if |ne| < g then [] else [ne[..g]] + Chunks(ne[g..], g)
  }

  /** The sentences after the last complete group: fewer than `g`. */
  function Rest(ne: seq<string>, g: nat): (r: seq<string>)
    requires g >= 1
    ensures |r| < g
    decreases |ne|
  {
    if |ne| < g then ne else Rest(ne[g..], g)
  }

  /** The sentences of a list of groups, in order. */
  function Flatten(cs: seq<seq<string>>): seq<string>
    decreases |cs|
  {
    if cs == [] then [] else cs[0] + Flatten(cs[1..])
  }

  /** The groups and the rest partition the sentences, in order. */
  lemma {:induction false} ChunksPartition(ne: seq<string>, g: nat)
    requires g >= 1
    ensures Flatten(Chunks(ne, g)) + Rest(ne, g) == ne
    decreases |ne|
  {
    if |ne| >= g {
      ChunksPartition(ne[g..], g);
      var cs := Chunks(ne, g);
      assert cs[1..] == Chunks(ne[g..], g);
      assert ne == ne[..g] + ne[g..];
    }
  }

  /** Appending one sentence either completes a group or extends the rest. */
  lemma {:induction false} ChunksSnoc(ne: seq<string>, x: string, g: nat)
    requires g >= 1
    ensures |Rest(ne, g)| + 1 == g ==>
              Chunks(ne + [x], g) == Chunks(ne, g) + [Rest(ne, g) + [x]] && Rest(ne + [x], g) == []
    ensures |Rest(ne, g)| + 1 < g ==>
              Chunks(ne + [x], g) == Chunks(ne, g) && Rest(ne + [x], g) == Rest(ne, g) + [x]
    decreases |ne|
  {
    if |ne| >= g {
      ChunksSnoc(ne[g..], x, g);
      assert (ne + [x])[..g] == ne[..g];
      assert (ne + [x])[g..] == ne[g..] + [x];
    } else if |ne| + 1 == g {
      assert Rest([], g) == [] && Chunks([], g) == [];
      assert (ne + [x])[..g] == ne + [x];
      assert (ne + [x])[g..] == [];
    }
  }

  /** The segment text of each group: the group's sentences joined and stripped. */
  function GroupTexts(cs: seq<seq<string>>): (ts: seq<string>)
    ensures |ts| == |cs|
    ensures forall k :: 0 <= k < |cs| ==> ts[k] == Strip(Concat(cs[k]))
  {
    seq(|cs|, k requires 0 <= k < |cs| => Strip(Concat(cs[k])))
  }

  /**
   * The grouping invariant of the loop state `st` over the non-empty sentences `ne` seen
   * so far: one emitted segment per complete group of `g` sentences, in order, and the
   * segment under construction holding the remaining `count < g` sentences.
   */
  ghost predicate Grouped(st: SegState, ne: seq<string>, g: nat)
    requires g >= 1
  {
    && st.segments == GroupTexts(Chunks(ne, g))
    && st.current == Concat(Rest(ne, g))
    && st.count == |Rest(ne, g)|
  }

  /** One loop step keeps the grouping invariant. */
  lemma SegStepGrouped(st: SegState, ne: seq<string>, x: string, n: int)
    requires Grouped(st, ne, GroupSize(n))
    ensures Grouped(SegStep(st, x, n), if x == [] then ne else ne + [x], GroupSize(n))
  {
    var g := GroupSize(n);
    if x != [] {
      ChunksSnoc(ne, x, g);
      ConcatAppend(Rest(ne, g), [x]);
      assert Concat([x]) == x;
      if st.count + 1 >= n {
        assert GroupTexts(Chunks(ne, g) + [Rest(ne, g) + [x]]) == st.segments + [Strip(st.current + x)];
      }
    }
  }

  /** After the loop the state is grouped over the non-empty sentences. */
  lemma {:induction false} SegFoldGroups(sentences: seq<string>, n: int)
    ensures Grouped(SegFold(sentences, n), NonEmpty(sentences), GroupSize(n))
    decreases |sentences|
  {
    if sentences == [] {
      assert NonEmpty(sentences) == [];
    } else {
      var init := sentences[..|sentences| - 1];
      var x := sentences[|sentences| - 1];
      SegFoldGroups(init, n);
      SegStepGrouped(SegFold(init, n), NonEmpty(init), x, n);
    }
  }

  /**
   * What `_auto_segment` returns, read through the grouping invariant: one segment per
   * complete group of `GroupSize(n)` non-empty sentences, in text order, then the partial
   * last group when it does not strip to nothing, or the whole text stripped when neither
   * exists.
   */
  lemma AutoSegmentGroups(text: string, n: int)
    requires text != []
    ensures var ne := NonEmpty(Sentences(RegexSplit(text)));
            var g := GroupSize(n);
            var full := GroupTexts(Chunks(ne, g));
            var last := Strip(Concat(Rest(ne, g)));
            && Flatten(Chunks(ne, g)) + Rest(ne, g) == ne
            && AutoSegment(text, n)
               == if full == [] && last == [] then [Strip(text)]
                  else full + (if last != [] then [last] else [])
  {
    var ss := Sentences(RegexSplit(text));
    var ne := NonEmpty(ss);
    var g := GroupSize(n);
    var st := SegFold(ss, n);
    SegFoldGroups(ss, n);
    ChunksPartition(ne, g);
    assert st.segments == GroupTexts(Chunks(ne, g));
    assert Strip(st.current) == Strip(Concat(Rest(ne, g)));
    assert AutoSegment(text, n) == Finalize(st, text);
  }

  /**
   * `_auto_segment` can return an empty segment: a bare newline is a sentence of its own,
   * so two of them form a group that strips to "".
   */
  lemma AutoSegmentBlankGroup()
    ensures AutoSegment("\n\n", 2) == [""]
  {
    BlankLinesSentences();
    BlankLinesFold();
    assert Strip("") == "";
  }

  /** `"\n\n"` splits into two bare newlines and a trailing empty sentence. */
  lemma BlankLinesSentences()
    ensures Sentences(RegexSplit("\n\n")) == ["\n", "\n", ""]
  {
    assert RegexSplit("\n\n") == ["", "\n", "", "\n", ""] by {
      assert "\n\n" == "" + ['\n'] + "\n";
      RegexSplitCons("", '\n', "\n");
      assert "\n" == "" + ['\n'] + "";
      RegexSplitCons("", '\n', "");
    }
    var parts: seq<string> := ["", "\n", "", "\n", ""];
    assert Strip("") == "";
    assert parts[2..][2..] == [""];
    assert Sentences([""]) == [""] by {
      assert SentenceAt([""], 0) == "";
    }
    assert Sentences(parts[2..]) == ["\n", ""] by {
      assert SentenceAt(parts[2..], 0) == "\n";
    }
    assert SentenceAt(parts, 0) == "\n";
  }

  /** Grouping by two: the two newlines fill one group, which strips to "". */
  lemma BlankLinesFold()
    ensures SegFold(["\n", "\n", ""], 2) == SegState([""], "", 0)
  {
    var ss: seq<string> := ["\n", "\n", ""];
    assert ss[..2] == ["\n", "\n"];
    assert ss[..2][..1] == ["\n"] && ss[..2][..1][..0] == [];
    assert SegFold(ss[..2][..1], 2) == SegState([], "\n", 1);
    assert Strip("\n\n") == "" by {
      StripSpec("\n\n");
      assert IsBlank("\n\n");
    }
    assert SegFold(ss[..2], 2) == SegState([""], "", 0);
  }

  /* ------------------------------------------------ texts made of whole sentences */

  /**
   * A sentence as the sample texts write it: a non-empty, terminator-free body that neither
   * starts nor ends with whitespace, then one terminator.
   */
  predicate WholeSentence(w: string) {
    && |w| >= 2
    && NoTerminator(w[..|w| - 1]) && IsTerminator(w[|w| - 1])
    && !IsSpace(w[0]) && !IsSpace(w[|w| - 2])
  }

  /** Every element of `ws` is a whole sentence. */
  predicate WholeSentences(ws: seq<string>) {
    forall k :: 0 <= k < |ws| ==> WholeSentence(ws[k])
  }

  /** The `re.split` pieces of the concatenated sentences: body, terminator, ..., then "". */
  function SentencePieces(ws: seq<string>): seq<string>
    requires WholeSentences(ws)
    decreases |ws|
  {
    if ws == [] then [""]
    else
      var w := ws[0];
      [w[..|w| - 1], [w[|w| - 1]]] + SentencePieces(ws[1..])
  }

  /** Splitting concatenated whole sentences cuts after each terminator. */
  lemma {:induction false} SplitWholeSentences(ws: seq<string>)
    requires WholeSentences(ws)
    ensures RegexSplit(Concat(ws)) == SentencePieces(ws)
    decreases |ws|
  {
    if ws == [] {
      assert RegexSplit("") == [""];
    } else {
      var w := ws[0];
      SplitWholeSentences(ws[1..]);
      assert w == w[..|w| - 1] + [w[|w| - 1]];
      RegexSplitCons(w[..|w| - 1], w[|w| - 1], Concat(ws[1..]));
    }
  }

  /** The loop rebuilds each whole sentence, then reads an empty last piece. */
  lemma {:induction false} SentencesOfPieces(ws: seq<string>)
    requires WholeSentences(ws)
    ensures Sentences(SentencePieces(ws)) == ws + [""]
    decreases |ws|
  {
    if ws == [] {
      StripOfTrimmed("");
      assert SentenceAt([""], 0) == "";
    } else {
      var w := ws[0];
      var parts := SentencePieces(ws);
      SentencesOfPieces(ws[1..]);
      assert parts[2..] == SentencePieces(ws[1..]);
      StripOfTrimmed(w[..|w| - 1]);
      assert SentenceAt(parts, 0) == w;
    }
  }

  /** Filtering a list without empty strings keeps all of it. */
  lemma {:induction false} NonEmptyKeepsAll(ws: seq<string>)
    requires forall k :: 0 <= k < |ws| ==> ws[k] != []
    ensures NonEmpty(ws) == ws
    decreases |ws|
  {
    if ws != [] {
      NonEmptyKeepsAll(ws[..|ws| - 1]);
    }
  }

  /** Joined whole sentences do not strip to nothing. */
  lemma WholeSentencesNotBlank(ws: seq<string>)
    requires WholeSentences(ws) && ws != []
    ensures Strip(Concat(ws)) != []
  {
    StripSpec(Concat(ws));
    assert Concat(ws)[0] == ws[0][0];
  }

  /**
   * A text made of whole sentences is segmented into its complete groups of `GroupSize(n)`
   * sentences, in order, then its partial last group when there is one; each segment is the
   * group's sentences joined and stripped.
   */
  lemma WholeSentenceSegments(ws: seq<string>, n: int)
    requires WholeSentences(ws) && ws != []
    ensures var g := GroupSize(n);
            AutoSegment(Concat(ws), n)
            == GroupTexts(Chunks(ws, g)) + (if Rest(ws, g) != [] then [Strip(Concat(Rest(ws, g)))] else [])
  {
    var text := Concat(ws);
    var g := GroupSize(n);
    assert text != [] by {
      assert text[..|ws[0]|] == ws[0];
    }
    SplitWholeSentences(ws);
    SentencesOfPieces(ws);
    assert NonEmpty(ws + [""]) == NonEmpty(ws);
    NonEmptyKeepsAll(ws);
    AutoSegmentGroups(text, n);
    var rest := Rest(ws, g);
    if rest != [] {
      WholeSentencesNotBlank(rest) by {
        ChunksPartition(ws, g);
        forall k | 0 <= k < |rest|
          ensures WholeSentence(rest[k])
        {
          assert rest[k] == ws[|ws| - |rest| + k];
        }
      }
    } else {
      assert |ws| >= g;
    }
  }

  /** The text of three sentences as one concatenation. */
  lemma ConcatThree(a: string, b: string, c: string)
    ensures Concat([a, b, c]) == a + b + c
  {
    assert [c][1..] == [];
    assert Concat([c]) == c;
    assert [b, c][1..] == [c];
    assert Concat([b, c]) == b + c;
    assert [a, b, c][1..] == [b, c];
  }

  /** The three-sentence sample with groups of 1: one segment per sentence. */
  lemma ThreeSentencesByOne(a: string, b: string, c: string)
    requires WholeSentence(a) && WholeSentence(b) && WholeSentence(c)
    ensures AutoSegment(a + b + c, 1) == [Strip(a), Strip(b), Strip(c)]
  {
    var ws := [a, b, c];
    assert Concat(ws) == a + b + c by {
      ConcatThree(a, b, c);
    }
    assert GroupTexts(Chunks(ws, 1)) == [Strip(a), Strip(b), Strip(c)] && Rest(ws, 1) == [] by {
      assert ws[..1] == [a] && ws[1..] == [b, c];
      assert [b, c][..1] == [b] && [b, c][1..] == [c];
      assert [c][..1] == [c] && [c][1..] == [];
      assert Chunks([c], 1) == [[c]] && Rest([c], 1) == [];
      assert Chunks([b, c], 1) == [[b], [c]];
      assert Chunks(ws, 1) == [[a], [b], [c]];
      assert Concat([a]) == a && Concat([b]) == b && Concat([c]) == c;
    }
    WholeSentenceSegments(ws, 1);
  }

  /** The three-sentence sample with groups of 2: the first two sentences, then the third. */
  lemma ThreeSentencesByTwo(a: string, b: string, c: string)
    requires WholeSentence(a) && WholeSentence(b) && WholeSentence(c)
    ensures AutoSegment(a + b + c, 2) == [Strip(a + b), Strip(c)]
  {
    var ws := [a, b, c];
    ConcatThree(a, b, c);
    WholeSentenceSegments(ws, 2);
    assert ws[..2] == [a, b] && ws[2..] == [c];
    assert Chunks(ws, 2) == [[a, b]] && Rest(ws, 2) == [c];
    assert Concat([a, b]) == a + b && Concat([c]) == c;
  }

  /** The three-sentence sample with groups of 3: the whole text. */
  lemma ThreeSentencesByThree(a: string, b: string, c: string)
    requires WholeSentence(a) && WholeSentence(b) && WholeSentence(c)
    ensures AutoSegment(a + b + c, 3) == [Strip(a + b + c)]
  {
    var ws := [a, b, c];
    ConcatThree(a, b, c);
    WholeSentenceSegments(ws, 3);
    assert ws[..3] == ws && ws[3..] == [];
    assert Chunks(ws, 3) == [ws] && Rest(ws, 3) == [];
  }

  /** The four-sentence sample, with `？` ending the first sentence: two segments of two. */
  lemma FourSentencesByTwo(a: string, b: string, c: string, d: string)
    requires WholeSentence(a) && WholeSentence(b) && WholeSentence(c) && WholeSentence(d)
    ensures AutoSegment(a + b + c + d, 2) == [Strip(a + b), Strip(c + d)]
  {
    var ws := [a, b, c, d];
    assert Concat(ws) == a + b + c + d by {
      assert ws[1..] == [b, c, d];
      ConcatThree(b, c, d);
    }
    assert GroupTexts(Chunks(ws, 2)) == [Strip(a + b), Strip(c + d)] && Rest(ws, 2) == [] by {
      assert ws[..2] == [a, b] && ws[2..] == [c, d];
      assert [c, d][..2] == [c, d] && [c, d][2..] == [];
      assert Chunks([c, d], 2) == [[c, d]] && Rest([c, d], 2) == [];
      assert Chunks(ws, 2) == [[a, b], [c, d]];
      assert Concat([a, b]) == a + b && Concat([c, d]) == c + d;
    }
    WholeSentenceSegments(ws, 2);
  }

  /* ------------------------------------- the sample texts of test_segmentation_simple.py */

  const Summer := "なつにすなはまですいかわりをします。"
  const Gull := "しろいかもめがとんでいます。"
  const Sky := "あおいそらがとてもきれいです。"
  const Question := "でてきたものは？"
  const ReadAloud := "げんきよく読みましょう。"

  /** The first sample text: three sentences, each ending in 。 */
  const SampleText1 := Summer + Gull + Sky

  /** The second sample text: an instruction question and request, then two sentences. */
  const SampleText2 := Question + ReadAloud + Summer + Gull

  /** The sample sentences are whole sentences. */
  lemma SampleSentencesWhole()
    ensures WholeSentence(Summer) && WholeSentence(Gull) && WholeSentence(Sky)
    ensures WholeSentence(Question) && WholeSentence(ReadAloud)
  {
  }

  /** The first sample text gives 3, 2 and 1 segments for groups of 1, 2 and 3 sentences. */
  lemma SampleText1Segments()
    ensures |AutoSegment(SampleText1, 1)| == 3
    ensures |AutoSegment(SampleText1, 2)| == 2
    ensures |AutoSegment(SampleText1, 3)| == 1
  {
    SampleSentencesWhole();
    ThreeSentencesByOne(Summer, Gull, Sky);
    ThreeSentencesByTwo(Summer, Gull, Sky);
    ThreeSentencesByThree(Summer, Gull, Sky);
  }

  /** `？` ends a sentence: the second sample text has four, grouped into 2 segments of 2. */
  lemma SampleText2Segments()
    ensures AutoSegment(SampleText2, 2) == [Question + ReadAloud, Summer + Gull]
  {
    SampleSentencesWhole();
    FourSentencesByTwo(Question, ReadAloud, Summer, Gull);
    StripOfTrimmed(Question + ReadAloud);
    StripOfTrimmed(Summer + Gull);
  }
}
