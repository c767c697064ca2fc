/**
 * `PictureToText.extract_text` of picture_to_text.py: how the Vision API's JSON reply is
 * read into a full text and a list of text blocks, in both detection modes, and the
 * HEIC test of `_encode_image`. The request itself is an input: the reply it produced.
 */
module Ocr {
  import opened Common
  import opened Strings

  /** One recognised symbol; its `text` key is read unconditionally. */
  datatype Symbol = Symbol(text: string)

  /** A word; `symbols` may be absent. */
  datatype Word = Word(symbols: Option<seq<Symbol>>)

  /** A paragraph; `words` and `confidence` may be absent. */
  datatype Paragraph = Paragraph(words: Option<seq<Word>>, confidence: Option<real>)

  /** A block; `paragraphs` may be absent. */
  datatype Block = Block(paragraphs: Option<seq<Paragraph>>)

  /** A page: its blocks and `property.detectedLanguages`, each possibly absent. */
  datatype Page = Page(blocks: Option<seq<Block>>, detectedLanguages: Option<seq<string>>)

  /** `fullTextAnnotation`: its `text` and `pages`, each possibly absent. */
  datatype FullTextAnnotation = FullTextAnnotation(text: Option<string>, pages: Option<seq<Page>>)

  /** A vertex of a bounding polygon. */
  datatype Vertex = Vertex(x: int, y: int)

  /** One entry of `textAnnotations`. */
  datatype TextAnnotation = TextAnnotation(description: Option<string>, boundingPoly: Option<seq<Vertex>>)

  /** The `error` object of a response. */
  datatype ApiError = ApiError(message: Option<string>)

  /** One element of `responses`. */
  datatype AnnotateResponse = AnnotateResponse(
    error: Option<ApiError>,
    fullTextAnnotation: Option<FullTextAnnotation>,
    textAnnotations: Option<seq<TextAnnotation>>)

  /** The JSON reply of `images:annotate`. */
  datatype VisionReply = VisionReply(responses: Option<seq<AnnotateResponse>>)

  /** An entry of `text_blocks`: a paragraph, or a text annotation with its bounding box. */
  datatype TextBlock =
    | ParagraphBlock(text: string, confidence: real)
    | AnnotationBlock(text: string, boundingBox: Option<seq<Vertex>>)

  /** What `extract_text` returns or raises. */
  datatype Extraction =
    | Extracted(fullText: string, textBlocks: seq<TextBlock>, language: Option<seq<string>>)
    | ExtractError(message: string)   // full_text "" and text_blocks [] with this error
    | IndexErrorRaised                // `pages` present but empty when reading the language

  /* ------------------------------------------------------- paragraph texts and blocks */

  /** `"".join(s['text'] for s in symbols)` */
  function SymbolsText(symbols: seq<Symbol>): string
    decreases |symbols|
  {
    if symbols == [] then [] else SymbolsText(symbols[..|symbols| - 1]) + symbols[|symbols| - 1].text
  }

  /** The text a word adds to its paragraph: its symbols joined, or nothing without symbols. */
  function WordText(w: Word): string {
    match w.symbols
    case None => []
    case Some(symbols) => SymbolsText(symbols)
  }

  /** The words' texts, concatenated in order. */
  function WordsText(words: seq<Word>): string
    decreases |words|
  {
    if words == [] then [] else WordsText(words[..|words| - 1]) + WordText(words[|words| - 1])
  }

  /** `block_text` of a paragraph. */
  function ParagraphText(p: Paragraph): string {
    WordsText(p.words.GetOr([]))
  }

  /**
   * The block a paragraph contributes: exactly one when its text is non-empty, carrying that
   * text and the paragraph's confidence (0 when it has none), and none otherwise.
   */
  function ParagraphBlocks(p: Paragraph): (r: seq<TextBlock>)
    ensures |r| <= 1
    ensures r == [] <==> ParagraphText(p) == []
    ensures r != [] ==> r[0] == ParagraphBlock(ParagraphText(p), p.confidence.GetOr(0.0))
  {
    var text := ParagraphText(p);
    if text != [] then [ParagraphBlock(text, p.confidence.GetOr(0.0))] else []
  }

  /** The blocks of a list of paragraphs, in order. */
  function ParagraphsBlocks(ps: seq<Paragraph>): seq<TextBlock>
    decreases |ps|
  {
    if ps == [] then [] else ParagraphsBlocks(ps[..|ps| - 1]) + ParagraphBlocks(ps[|ps| - 1])
  }

  /** The blocks of a list of layout blocks, in order. */
  function BlocksBlocks(bs: seq<Block>): seq<TextBlock>
    decreases |bs|
  {
    if bs == [] then [] else BlocksBlocks(bs[..|bs| - 1]) + ParagraphsBlocks(bs[|bs| - 1].paragraphs.GetOr([]))
  }

  /** The blocks of a list of pages, in page, block, paragraph order. */
  function PagesBlocks(pages: seq<Page>): seq<TextBlock>
    decreases |pages|
  {
    if pages == [] then [] else PagesBlocks(pages[..|pages| - 1]) + BlocksBlocks(pages[|pages| - 1].blocks.GetOr([]))
  }

  /* ------------------------------------ the blocks, as a filter over all paragraphs */

  /** Every paragraph of the layout blocks, in reading order. */
  function BlockParagraphs(bs: seq<Block>): seq<Paragraph>
    decreases |bs|
  {
    if bs == [] then [] else bs[0].paragraphs.GetOr([]) + BlockParagraphs(bs[1..])
  }

  /** Every paragraph of the pages, in page, block, paragraph order. */
  function PageParagraphs(pages: seq<Page>): seq<Paragraph>
    decreases |pages|
  {
    if pages == [] then [] else BlockParagraphs(pages[0].blocks.GetOr([])) + PageParagraphs(pages[1..])
  }

  /** The paragraphs with a non-empty text, each as a block with its text and confidence or 0. */
  function TextfulBlocks(ps: seq<Paragraph>): seq<TextBlock>
    decreases |ps|
  {
    if ps == [] then []
    else
      var text := ParagraphText(ps[0]);
      (if text == [] then [] else [ParagraphBlock(text, ps[0].confidence.GetOr(0.0))]) + TextfulBlocks(ps[1..])
  }

  lemma {:induction false} TextfulBlocksAppend(a: seq<Paragraph>, b: seq<Paragraph>)
    ensures TextfulBlocks(a + b) == TextfulBlocks(a) + TextfulBlocks(b)
    decreases |a|
  {
    if a == [] {
      assert a + b == b;
    } else {
      assert (a + b)[0] == a[0] && (a + b)[1..] == a[1..] + b;
      TextfulBlocksAppend(a[1..], b);
    }
  }

  lemma {:induction false} BlockParagraphsAppend(a: seq<Block>, b: seq<Block>)
    ensures BlockParagraphs(a + b) == BlockParagraphs(a) + BlockParagraphs(b)
    decreases |a|
  {
    if a == [] {
      assert a + b == b;
    } else {
      assert (a + b)[0] == a[0] && (a + b)[1..] == a[1..] + b;
      BlockParagraphsAppend(a[1..], b);
    }
  }

  lemma {:induction false} PageParagraphsAppend(a: seq<Page>, b: seq<Page>)
    ensures PageParagraphs(a + b) == PageParagraphs(a) + PageParagraphs(b)
    decreases |a|
  {
    if a == [] {
      assert a + b == b;
    } else {
      assert (a + b)[0] == a[0] && (a + b)[1..] == a[1..] + b;
      PageParagraphsAppend(a[1..], b);
    }
  }

  /** The blocks of a list of paragraphs are its paragraphs with text, in order. */
  lemma {:induction false} ParagraphsBlocksFilter(ps: seq<Paragraph>)
    ensures ParagraphsBlocks(ps) == TextfulBlocks(ps)
    decreases |ps|
  {
    if ps != [] {
      var init, last := ps[..|ps| - 1], ps[|ps| - 1];
      ParagraphsBlocksFilter(init);
      TextfulBlocksAppend(init, [last]);
      assert init + [last] == ps;
      assert TextfulBlocks([last]) == ParagraphBlocks(last) by {
        assert [last][1..] == [];
      }
    }
  }

  /** The blocks of layout blocks are all their paragraphs with text, in order. */
  lemma {:induction false} BlocksBlocksFilter(bs: seq<Block>)
    ensures BlocksBlocks(bs) == TextfulBlocks(BlockParagraphs(bs))
    decreases |bs|
  {
    if bs != [] {
      var init, last := bs[..|bs| - 1], bs[|bs| - 1];
      var lastPs := last.paragraphs.GetOr([]);
      BlocksBlocksFilter(init);
      ParagraphsBlocksFilter(lastPs);
      BlockParagraphsAppend(init, [last]);
      assert init + [last] == bs;
      assert BlockParagraphs([last]) == lastPs by {
        assert [last][1..] == [];
        assert lastPs + [] == lastPs;
      }
      TextfulBlocksAppend(BlockParagraphs(init), lastPs);
    }
  }

  /**
   * A document's text blocks are exactly its paragraphs with a non-empty text, one block
   * each, in page, block and paragraph order, with the paragraph's confidence or 0.
   */
  lemma {:induction false} PagesBlocksFilter(pages: seq<Page>)
    ensures PagesBlocks(pages) == TextfulBlocks(PageParagraphs(pages))
    decreases |pages|
  {
    if pages != [] {
      var init, last := pages[..|pages| - 1], pages[|pages| - 1];
      var lastPs := BlockParagraphs(last.blocks.GetOr([]));
      PagesBlocksFilter(init);
      BlocksBlocksFilter(last.blocks.GetOr([]));
      PageParagraphsAppend(init, [last]);
      assert init + [last] == pages;
      assert PageParagraphs([last]) == lastPs by {
        assert [last][1..] == [];
        assert lastPs + [] == lastPs;
      }
      TextfulBlocksAppend(PageParagraphs(init), lastPs);
    }
  }

  /* --------------------------------------------------- the document's text, by level */

  /** The texts of the paragraphs, concatenated. */
  function ParagraphsText(ps: seq<Paragraph>): string
    decreases |ps|
  {
    if ps == [] then [] else ParagraphsText(ps[..|ps| - 1]) + ParagraphText(ps[|ps| - 1])
  }

  /** The texts of the layout blocks, concatenated. */
  function BlocksText(bs: seq<Block>): string
    decreases |bs|
  {
    if bs == [] then [] else BlocksText(bs[..|bs| - 1]) + ParagraphsText(bs[|bs| - 1].paragraphs.GetOr([]))
  }

  /** Every symbol text of the pages, in reading order. */
  function PagesText(pages: seq<Page>): string
    decreases |pages|
  {
    if pages == [] then [] else PagesText(pages[..|pages| - 1]) + BlocksText(pages[|pages| - 1].blocks.GetOr([]))
  }

  /** The texts of a list of text blocks, concatenated. */
  function BlockTexts(tbs: seq<TextBlock>): string
    decreases |tbs|
  {
    if tbs == [] then [] else BlockTexts(tbs[..|tbs| - 1]) + tbs[|tbs| - 1].text
  }

  /** Concatenating the texts of two lists of blocks. */
  lemma {:induction false} BlockTextsAppend(a: seq<TextBlock>, b: seq<TextBlock>)
    ensures BlockTexts(a + b) == BlockTexts(a) + BlockTexts(b)
    decreases |b|
  {
    if b != [] {
      BlockTextsAppend(a, b[..|b| - 1]);
      assert (a + b)[..|a + b| - 1] == a + b[..|b| - 1];
    } else {
      assert a + b == a;
    }
  }

  /** Dropping the empty paragraphs loses no text: the blocks hold every paragraph's text. */
  lemma {:induction false} ParagraphsBlocksText(ps: seq<Paragraph>)
    ensures BlockTexts(ParagraphsBlocks(ps)) == ParagraphsText(ps)
    decreases |ps|
  {
    if ps != [] {
      ParagraphsBlocksText(ps[..|ps| - 1]);
      BlockTextsAppend(ParagraphsBlocks(ps[..|ps| - 1]), ParagraphBlocks(ps[|ps| - 1]));
    }
  }

  /** The same over layout blocks. */
  lemma {:induction false} BlocksBlocksText(bs: seq<Block>)
    ensures BlockTexts(BlocksBlocks(bs)) == BlocksText(bs)
    decreases |bs|
  {
    if bs != [] {
      var last := bs[|bs| - 1].paragraphs.GetOr([]);
      BlocksBlocksText(bs[..|bs| - 1]);
      ParagraphsBlocksText(last);
      BlockTextsAppend(BlocksBlocks(bs[..|bs| - 1]), ParagraphsBlocks(last));
    }
  }

  /** The text blocks of a document, read in order, spell out every symbol of every page. */
  lemma {:induction false} PagesBlocksText(pages: seq<Page>)
    ensures BlockTexts(PagesBlocks(pages)) == PagesText(pages)
    decreases |pages|
  {
    if pages != [] {
      var last := pages[|pages| - 1].blocks.GetOr([]);
      PagesBlocksText(pages[..|pages| - 1]);
      BlocksBlocksText(last);
      BlockTextsAppend(PagesBlocks(pages[..|pages| - 1]), BlocksBlocks(last));
    }
  }

  /** Every paragraph block has a non-empty text. */
  predicate NonEmptyParagraphBlocks(tbs: seq<TextBlock>) {
    forall k :: 0 <= k < |tbs| ==> tbs[k].ParagraphBlock? && tbs[k].text != []
  }

  /** The blocks of paragraphs are non-empty paragraph blocks. */
  lemma {:induction false} ParagraphsBlocksNonEmpty(ps: seq<Paragraph>)
    ensures NonEmptyParagraphBlocks(ParagraphsBlocks(ps))
    decreases |ps|
  {
    if ps != [] {
      ParagraphsBlocksNonEmpty(ps[..|ps| - 1]);
    }
  }

  /** The blocks of layout blocks are non-empty paragraph blocks. */
  lemma {:induction false} BlocksBlocksNonEmpty(bs: seq<Block>)
    ensures NonEmptyParagraphBlocks(BlocksBlocks(bs))
    decreases |bs|
  {
    if bs != [] {
      BlocksBlocksNonEmpty(bs[..|bs| - 1]);
      ParagraphsBlocksNonEmpty(bs[|bs| - 1].paragraphs.GetOr([]));
    }
  }

  /** A document's blocks are paragraph blocks with non-empty texts: empty paragraphs are dropped. */
  lemma {:induction false} PagesBlocksNonEmpty(pages: seq<Page>)
    ensures NonEmptyParagraphBlocks(PagesBlocks(pages))
    decreases |pages|
  {
    if pages != [] {
      PagesBlocksNonEmpty(pages[..|pages| - 1]);
      BlocksBlocksNonEmpty(pages[|pages| - 1].blocks.GetOr([]));
    }
  }

  /* ----------------------------------------------------------------- the nested loops */

  /** Taking one more element of a list into a snoc-defined fold. */
  lemma PrefixStep<T>(xs: seq<T>, i: nat)
    requires i < |xs|
    ensures xs[..i + 1][..i] == xs[..i] && xs[..i + 1][i] == xs[i]
  {
  }

  /** The innermost loop: `block_text` of one paragraph. */
  method ParagraphTextLoop(p: Paragraph) returns (blockText: string)
    ensures blockText == ParagraphText(p)
  {
    blockText := "";
    if p.words.Some? {
      var words := p.words.value;
      var l := 0;
      while l < |words|
        invariant 0 <= l <= |words|
        invariant blockText == WordsText(words[..l])
      {
        PrefixStep(words, l);
        var word := words[l];
        if word.symbols.Some? {
          var wordText := SymbolsText(word.symbols.value);
          blockText := blockText + wordText;
        }
        l := l + 1;
      }
      assert words[..l] == words;
    }
  }

  lemma PagesBlocksPrefix(pages: seq<Page>, i: nat)
    requires i < |pages|
    ensures PagesBlocks(pages[..i + 1]) == PagesBlocks(pages[..i]) + BlocksBlocks(pages[i].blocks.GetOr([]))
  {
    PrefixStep(pages, i);
  }

  lemma BlocksBlocksPrefix(blocks: seq<Block>, j: nat)
    requires j < |blocks|
    ensures BlocksBlocks(blocks[..j + 1])
            == BlocksBlocks(blocks[..j]) + ParagraphsBlocks(blocks[j].paragraphs.GetOr([]))
  {
    PrefixStep(blocks, j);
  }

  lemma ParagraphsBlocksPrefix(paragraphs: seq<Paragraph>, k: nat)
    requires k < |paragraphs|
    ensures ParagraphsBlocks(paragraphs[..k + 1])
            == ParagraphsBlocks(paragraphs[..k]) + ParagraphBlocks(paragraphs[k])
  {
    PrefixStep(paragraphs, k);
  }

  /** The paragraph loop: one block per paragraph with a non-empty text, in order. */
  method ParagraphBlocksLoop(paragraphs: seq<Paragraph>) returns (textBlocks: seq<TextBlock>)
    ensures textBlocks == ParagraphsBlocks(paragraphs)
  {
    textBlocks := [];
    var k := 0;
    while k < |paragraphs|
      invariant 0 <= k <= |paragraphs|
      invariant textBlocks == ParagraphsBlocks(paragraphs[..k])
    {
      ParagraphsBlocksPrefix(paragraphs, k);
      var paragraph := paragraphs[k];
      var blockText := ParagraphTextLoop(paragraph);
      if blockText != [] {
        textBlocks := textBlocks + [ParagraphBlock(blockText, paragraph.confidence.GetOr(0.0))];
      }
      k := k + 1;
    }
    assert paragraphs[..k] == paragraphs;
  }

  /** The block loop: the paragraph loop of each block that has paragraphs, in order. */
  method BlockBlocksLoop(blocks: seq<Block>) returns (textBlocks: seq<TextBlock>)
    ensures textBlocks == BlocksBlocks(blocks)
  {
    textBlocks := [];
    var j := 0;
    while j < |blocks|
      invariant 0 <= j <= |blocks|
      invariant textBlocks == BlocksBlocks(blocks[..j])
    {
      BlocksBlocksPrefix(blocks, j);
      var block := blocks[j];
      if block.paragraphs.Some? {
        var added := ParagraphBlocksLoop(block.paragraphs.value);
        textBlocks := textBlocks + added;
      }
      j := j + 1;
    }
    assert blocks[..j] == blocks;
  }

  /**
   * The loops of the DOCUMENT_TEXT_DETECTION branch over pages, blocks and paragraphs,
   * appending one block per paragraph with a non-empty text.
   */
  method DocumentBlocks(pages: seq<Page>) returns (textBlocks: seq<TextBlock>)
    ensures textBlocks == PagesBlocks(pages)
  {
    textBlocks := [];
    var i := 0;
    while i < |pages|
      invariant 0 <= i <= |pages|
      invariant textBlocks == PagesBlocks(pages[..i])
    {
      PagesBlocksPrefix(pages, i);
      var page := pages[i];
      if page.blocks.Some? {
        var added := BlockBlocksLoop(page.blocks.value);
        textBlocks := textBlocks + added;
      }
      i := i + 1;
    }
    assert pages[..i] == pages;
  }

  /** The blocks of the TEXT_DETECTION branch: every annotation after the first, in order. */
  function AnnotationBlocks(annotations: seq<TextAnnotation>): (r: seq<TextBlock>)
    ensures |r| == |annotations|
    ensures forall k :: 0 <= k < |r| ==>
              r[k] == AnnotationBlock(annotations[k].description.GetOr(""), annotations[k].boundingPoly)
    decreases |annotations|
  {
    if annotations == [] then []
    else
      var last := annotations[|annotations| - 1];
      AnnotationBlocks(annotations[..|annotations| - 1])
      + [AnnotationBlock(last.description.GetOr(""), last.boundingPoly)]
  }

  /** The loop of the TEXT_DETECTION branch over `textAnnotations[1:]`. */
  method AnnotationBlocksLoop(annotations: seq<TextAnnotation>) returns (textBlocks: seq<TextBlock>)
    requires |annotations| >= 1
    ensures textBlocks == AnnotationBlocks(annotations[1..])
  {
    var rest := annotations[1..];
    textBlocks := [];
    var i := 0;
    while i < |rest|
      invariant 0 <= i <= |rest|
      invariant textBlocks == AnnotationBlocks(rest[..i])
    {
      PrefixStep(rest, i);
      var annotation := rest[i];
      textBlocks := textBlocks + [AnnotationBlock(annotation.description.GetOr(""), annotation.boundingPoly)];
      i := i + 1;
    }
    assert rest[..i] == rest;
  }

  /* ----------------------------------------------------------------- extract_text */

  const DocumentTextDetection := "DOCUMENT_TEXT_DETECTION"
  const TextDetection := "TEXT_DETECTION"

  /** `full_text_annotation.get('pages', [{}])[0].get('property', {}).get('detectedLanguages', [])` */
  function Language(fta: FullTextAnnotation): Option<seq<string>> {
    match fta.pages
    case None => Some([])
    case Some(pages) => if pages == [] then None else Some(pages[0].detectedLanguages.GetOr([]))
  }

  /** `extract_text(image_path, detection_type)` given the reply of `detect_text`. */
  function ExtractText(reply: VisionReply, detectionType: string): (r: Extraction)
    ensures reply.responses.None? || reply.responses == Some([]) ==> r == ExtractError("未检测到文本")
    ensures reply.responses.Some? && reply.responses.value != [] && reply.responses.value[0].error.Some? ==>
              r == ExtractError(reply.responses.value[0].error.value.message.GetOr("未知错误"))
  {
    match reply.responses
    case None => ExtractError("未检测到文本")
    case Some(responses) =>
      if responses == [] then ExtractError("未检测到文本")
      else
        var response := responses[0];
        if response.error.Some? then ExtractError(response.error.value.message.GetOr("未知错误"))
        else if detectionType == DocumentTextDetection && response.fullTextAnnotation.Some? then
          var fta := response.fullTextAnnotation.value;
          var language := Language(fta);
          if language.None? then IndexErrorRaised
          else Extracted(fta.text.GetOr(""), PagesBlocks(fta.pages.GetOr([])), language)
        else if detectionType == TextDetection && response.textAnnotations.Some?
                && |response.textAnnotations.value| > 0 then
          var annotations := response.textAnnotations.value;
          Extracted(annotations[0].description.GetOr(""), AnnotationBlocks(annotations[1..]), None)
        else ExtractError("未找到文本数据")
  }

  /** Only the first response counts: whatever follows it does not change the result. */
  lemma OnlyFirstResponse(first: AnnotateResponse, rest1: seq<AnnotateResponse>,
                          rest2: seq<AnnotateResponse>, detectionType: string)
    ensures ExtractText(VisionReply(Some([first] + rest1)), detectionType)
            == ExtractText(VisionReply(Some([first] + rest2)), detectionType)
  {
  }

  /**
   * In document mode a reply with a full-text annotation and pages yields that annotation's
   * text and one block per non-empty paragraph, whose texts together spell out the pages.
   */
  lemma DocumentExtraction(reply: VisionReply, fta: FullTextAnnotation, pages: seq<Page>)
    requires reply.responses.Some? && |reply.responses.value| > 0
    requires reply.responses.value[0].error.None?
    requires reply.responses.value[0].fullTextAnnotation == Some(fta)
    requires fta.pages == Some(pages) && pages != []
    ensures var r := ExtractText(reply, DocumentTextDetection);
            && r.Extracted? && r.fullText == fta.text.GetOr("")
            && r.textBlocks == TextfulBlocks(PageParagraphs(pages))
            && NonEmptyParagraphBlocks(r.textBlocks)
            && BlockTexts(r.textBlocks) == PagesText(pages)
            && r.language == Some(pages[0].detectedLanguages.GetOr([]))
  {
    PagesBlocksFilter(pages);
    PagesBlocksNonEmpty(pages);
    PagesBlocksText(pages);
  }

  /** A full-text annotation with an empty page list raises the IndexError of the language lookup. */
  lemma EmptyPagesRaise(reply: VisionReply, fta: FullTextAnnotation)
    requires reply.responses.Some? && |reply.responses.value| > 0
    requires reply.responses.value[0].error.None?
    requires reply.responses.value[0].fullTextAnnotation == Some(fta)
    requires fta.pages == Some([])
    ensures ExtractText(reply, DocumentTextDetection) == IndexErrorRaised
  {
  }

  /** A full-text annotation without pages gives its text, no blocks and no languages. */
  lemma NoPagesExtraction(reply: VisionReply, fta: FullTextAnnotation)
    requires reply.responses.Some? && |reply.responses.value| > 0
    requires reply.responses.value[0].error.None?
    requires reply.responses.value[0].fullTextAnnotation == Some(fta)
    requires fta.pages.None?
    ensures ExtractText(reply, DocumentTextDetection) == Extracted(fta.text.GetOr(""), [], Some([]))
  {
  }

  /**
   * In text mode a reply with n > 0 annotations yields the first as the full text and the
   * other n - 1 as blocks, in order.
   */
  lemma TextExtraction(reply: VisionReply, annotations: seq<TextAnnotation>)
    requires reply.responses.Some? && |reply.responses.value| > 0
    requires reply.responses.value[0].error.None?
    requires reply.responses.value[0].textAnnotations == Some(annotations) && |annotations| > 0
    ensures var r := ExtractText(reply, TextDetection);
            && r.Extracted? && r.fullText == annotations[0].description.GetOr("")
            && |r.textBlocks| == |annotations| - 1
            && forall k :: 1 <= k < |annotations| ==> r.textBlocks[k - 1].text == annotations[k].description.GetOr("")
  {
  }

  /**
   * A mode other than the two, document mode without a full-text annotation, or text mode
   * without annotations (absent or empty) is "未找到文本数据".
   */
  lemma NoTextData(reply: VisionReply, detectionType: string)
    requires reply.responses.Some? && |reply.responses.value| > 0
    requires reply.responses.value[0].error.None?
    requires detectionType == DocumentTextDetection ==> reply.responses.value[0].fullTextAnnotation.None?
    requires detectionType == TextDetection ==>
               reply.responses.value[0].textAnnotations.None? || reply.responses.value[0].textAnnotations == Some([])
    ensures ExtractText(reply, detectionType) == ExtractError("未找到文本数据")
  {
  }

  /* ------------------------------------------------------------------- _encode_image */

  /** `_encode_image` converts to JPEG first when the lower-cased extension is .heic or .heif. */
  predicate IsHeic(imagePath: string) {
    var ext := Lower(SplitExt(imagePath).1);
    ext == ".heic" || ext == ".heif"
  }

  /** A HEIC path ends, ignoring ASCII case, in .heic or .heif. */
  lemma HeicSuffix(imagePath: string)
    requires IsHeic(imagePath)
    ensures EndsWith(Lower(imagePath), ".heic") || EndsWith(Lower(imagePath), ".heif")
  {
    var (root, ext) := SplitExt(imagePath);
    LowerAppend(root, ext);
    var l := Lower(root) + Lower(ext);
    assert l[|l| - |Lower(ext)|..] == Lower(ext);
  }

  /**
   * A file name ending, in any case, in .heic or .heif after a name that is not only dots
   * is converted.
   */
  lemma HeicOfName(name: string, ext: string)
    requires name != [] && '/' !in name && !AllDots(name)
    requires |ext| == 5 && ext[0] == '.' && (Lower(ext) == ".heic" || Lower(ext) == ".heif")
    ensures IsHeic(name + ext)
  {
    var p := name + ext;
    forall k | 0 <= k < 5
      ensures ext[k] != '/' && (k >= 1 ==> ext[k] != '.')
    {
      assert Lower(ext)[k] == LowerChar(ext[k]);
    }
    forall k | 0 <= k < |p|
      ensures p[k] != '/' && (k > |name| ==> p[k] != '.')
    {
      if k >= |name| {
        assert p[k] == ext[k - |name|];
      } else {
        assert p[k] == name[k];
      }
    }
    assert RFind(p, '/') == -1;
    var dot := RFind(p, '.');
    assert p[|name|] == '.';
    assert dot == |name|;
    assert p[0..dot] == name;
    assert ExtStart(p) == |name|;
    assert SplitExt(p).1 == ext;
  }
}
