/**
 * The background job `process_image_task` (app_fastapi.py): OCR, then text processing,
 * then speech synthesis, reporting each step to the task table.
 *
 * The services' answers are inputs (`Services`); the job itself is a method that performs
 * the status updates on a `TaskManager`, specified by the function `Updates`, the list of
 * updates it makes in order.
 */
module Pipeline {
  import opened Common
  import opened Strings
  import opened Tasks
  import Ocr
  import TP = TextProcessing
  import Speech

  /** What `ocr.extract_text` meets: a failed request (`detect_text` raises) or the service's reply. */
  datatype OcrCall = OcrRequestFailed(reason: string) | OcrReplied(reply: Ocr.VisionReply)

  /** The answers of the three services and whether each one was initialised. */
  datatype Services = Services(
    ocrReady: bool,
    ocr: OcrCall,
    textReady: bool,
    llm: TP.LlmReply,
    ttsReady: bool,
    tts: string -> Speech.TtsReply)   // the speech service's reply for a text

  /** `processed_text`: the text processor's result, or the stand-in used without one. */
  datatype ProcessedText =
    | TextResult(processed: TP.Processed)
    | Unprocessed(cleanedText: string, translation: string)

  /** The stored result: the OCR part, the processed text and the audio URLs. */
  datatype PipelineResult = PipelineResult(
    fullText: string,
    textBlocks: seq<Ocr.TextBlock>,
    language: Option<seq<string>>,
    processedText: Option<ProcessedText>,
    audioUrls: map<string, string>)

  /** A one-key `progress` argument: a stage and its new state. */
  datatype StageEvent = StageEvent(stage: string, state: string)

  /** The arguments of one `update_task_status` call. */
  datatype StatusUpdate = StatusUpdate(
    status: TaskStatus,
    event: Option<StageEvent>,
    result: Option<PipelineResult>,
    error: Option<string>)

  const OcrMissing := "OCR 模块未初始化，请检查 GOOGLE_CLOUD_API_KEY 环境变量"
  const TextProcessorMissing := "文本处理模块未初始化"
  /** `str(e)` of the IndexError raised when the annotation has an empty page list. */
  const IndexErrorMessage := "list index out of range"

  function Progress(status: TaskStatus, stage: string, state: string): StatusUpdate {
    StatusUpdate(status, Some(StageEvent(stage, state)), None, None)
  }

  function Fail(message: string): StatusUpdate {
    StatusUpdate(Failed, None, None, Some(message))
  }

  /** The `progress` dictionary a call passes. */
  function ProgressMap(event: Option<StageEvent>): (m: map<string, string>)
    ensures event.None? ==> m == map[]
    ensures event.Some? ==> m.Keys == {event.value.stage} && m[event.value.stage] == event.value.state
  {
    if event.None? then map[] else map[event.value.stage := event.value.state]
  }

  /* ------------------------------------------------------------------- audio URLs */

  /** Whether `synthesize_japanese(text, "ja-JP-Neural2-B", output_format="mp3")` returns audio. */
  predicate Synthesized(text: string, tts: string -> Speech.TtsReply) {
    Speech.SynthesizeJapanese(text, Speech.DefaultVoice, "mp3", None, tts(text)).Synthesized?
  }

  /** `/static/audio/{task_id}_{key}.mp3` */
  function AudioUrl(taskId: string, key: string): string {
    "/static/audio/" + taskId + "_" + key + ".mp3"
  }

  function SegmentKey(idx: nat): string {
    "segment_" + NatToString(idx)
  }

  /** Different indices give different keys. */
  lemma SegmentKeyInjective(i: nat, j: nat)
    requires SegmentKey(i) == SegmentKey(j)
    ensures i == j
  {
    var p := "segment_";
    assert NatToString(i) == SegmentKey(i)[|p|..];
    assert NatToString(j) == SegmentKey(j)[|p|..];
    NatToStringValue(i);
    NatToStringValue(j);
  }

  /** The audio URL of every non-blank segment whose synthesis succeeded, keyed by its index. */
  function SegmentUrls(taskId: string, segments: seq<string>, tts: string -> Speech.TtsReply): map<string, string>
  {
    if segments == [] then map[]
    else
      var idx := |segments| - 1;
      var urls := SegmentUrls(taskId, segments[..idx], tts);
      if !IsBlank(segments[idx]) && Synthesized(segments[idx], tts) then
        urls[SegmentKey(idx) := AudioUrl(taskId, SegmentKey(idx))]
      else urls
  }

  /**
   * `segment_i` is present exactly for the non-blank segments whose synthesis succeeded,
   * with that segment's URL.
   */
  lemma {:induction false} SegmentUrlsSpec(taskId: string, segments: seq<string>, tts: string -> Speech.TtsReply)
    ensures forall i: nat :: SegmentKey(i) in SegmentUrls(taskId, segments, tts) <==>
              i < |segments| && !IsBlank(segments[i]) && Synthesized(segments[i], tts)
    ensures forall i: nat :: SegmentKey(i) in SegmentUrls(taskId, segments, tts) ==>
              SegmentUrls(taskId, segments, tts)[SegmentKey(i)] == AudioUrl(taskId, SegmentKey(i))
  {
    if segments != [] {
      var idx := |segments| - 1;
      var init := segments[..idx];
      SegmentUrlsSpec(taskId, init, tts);
      var urls := SegmentUrls(taskId, init, tts);
      forall i: nat
        ensures SegmentKey(i) in SegmentUrls(taskId, segments, tts) <==>
                i < |segments| && !IsBlank(segments[i]) && Synthesized(segments[i], tts)
        ensures SegmentKey(i) in SegmentUrls(taskId, segments, tts) ==>
                SegmentUrls(taskId, segments, tts)[SegmentKey(i)] == AudioUrl(taskId, SegmentKey(i))
      {
        if i != idx {
          if SegmentKey(i) == SegmentKey(idx) {
            SegmentKeyInjective(i, idx);
          }
          if i < idx {
            assert init[i] == segments[i];
          }
        }
      }
    }
  }

  /** No key other than the segment keys is present. */
  lemma {:induction false} SegmentUrlsOnly(taskId: string, segments: seq<string>, tts: string -> Speech.TtsReply)
    ensures forall k :: k in SegmentUrls(taskId, segments, tts) ==> exists i: nat :: k == SegmentKey(i)
  {
    if segments != [] {
      SegmentUrlsOnly(taskId, segments[..|segments| - 1], tts);
    }
  }

  method SegmentUrlsLoop(taskId: string, segments: seq<string>, tts: string -> Speech.TtsReply)
    returns (audioUrls: map<string, string>)
    ensures audioUrls == SegmentUrls(taskId, segments, tts)
  {
    audioUrls := map[];
    for idx := 0 to |segments|
      invariant audioUrls == SegmentUrls(taskId, segments[..idx], tts)
    {
      assert segments[..idx + 1][..idx] == segments[..idx];
      var segment := segments[idx];
      if !IsBlank(segment) {
        var ttsResult := Speech.SynthesizeJapanese(segment, Speech.DefaultVoice, "mp3", None, tts(segment));
        if ttsResult.Synthesized? {
          var key := SegmentKey(idx);
          audioUrls := audioUrls[key := AudioUrl(taskId, key)];
        }
      }
    }
    assert segments[..|segments|] == segments;
  }

  /** `processed_text.get('segments', [])` */
  function SegmentsOf(pt: ProcessedText): seq<string> {
    if pt.TextResult? then pt.processed.segments else []
  }

  /** `processed_text.get('main_text', '') or processed_text.get('japanese_text', '')` */
  function MainTextOf(pt: ProcessedText): string {
    if pt.Unprocessed? then ""
    else if pt.processed.mainText != [] then pt.processed.mainText
    else pt.processed.japaneseText
  }

  /** `processed_text.get('instruction', '')` */
  function InstructionOf(pt: ProcessedText): string {
    if pt.TextResult? then pt.processed.instruction else ""
  }

  /** Adds `key` with its URL when `text` is not blank and is synthesised. */
  function WithAudio(urls: map<string, string>, taskId: string, key: string, text: string,
                     tts: string -> Speech.TtsReply): map<string, string>
  {
    if !IsBlank(text) && Synthesized(text, tts) then urls[key := AudioUrl(taskId, key)] else urls
  }

  /** The `audio_urls` of the TTS step: the segments, then `main`, then `instruction`. */
  function AudioUrls(taskId: string, pt: ProcessedText, tts: string -> Speech.TtsReply): map<string, string> {
    var urls := SegmentUrls(taskId, SegmentsOf(pt), tts);
    var urls2 := WithAudio(urls, taskId, "main", MainTextOf(pt), tts);
    WithAudio(urls2, taskId, "instruction", InstructionOf(pt), tts)
  }

  /** `main` and `instruction` are present exactly when their text is spoken, and never clash with a segment. */
  lemma AudioUrlsKeys(taskId: string, pt: ProcessedText, tts: string -> Speech.TtsReply)
    ensures "main" in AudioUrls(taskId, pt, tts) <==> !IsBlank(MainTextOf(pt)) && Synthesized(MainTextOf(pt), tts)
    ensures "instruction" in AudioUrls(taskId, pt, tts) <==>
              !IsBlank(InstructionOf(pt)) && Synthesized(InstructionOf(pt), tts)
    ensures forall i: nat :: SegmentKey(i) in AudioUrls(taskId, pt, tts) <==>
              i < |SegmentsOf(pt)| && !IsBlank(SegmentsOf(pt)[i]) && Synthesized(SegmentsOf(pt)[i], tts)
    ensures pt.Unprocessed? ==> AudioUrls(taskId, pt, tts) == map[]
  {
    var segments := SegmentsOf(pt);
    SegmentUrlsSpec(taskId, segments, tts);
    SegmentUrlsOnly(taskId, segments, tts);
    forall i: nat ensures SegmentKey(i) != "main" && SegmentKey(i) != "instruction" {
      assert SegmentKey(i)[0] == 's';
    }
    assert "main" != "instruction";
  }

  /* ---------------------------------------------------------------- the update log */

  /** The TTS step, when there is a processed text and a TTS client, then the final update. */
  function FinalUpdates(taskId: string, s: Services, fullText: string, blocks: seq<Ocr.TextBlock>,
                        language: Option<seq<string>>, pt: Option<ProcessedText>): seq<StatusUpdate>
  {
    var speak := s.ttsReady && pt.Some?;
    var urls := if speak then AudioUrls(taskId, pt.value, s.tts) else map[];
    (if speak then [Progress(TtsGenerating, "tts", "processing"), Progress(TtsGenerating, "tts", "completed")] else [])
    + [StatusUpdate(Completed, None, Some(PipelineResult(fullText, blocks, language, pt, urls)), None)]
  }

  /** Whether `processed_text.get('error')` is truthy. */
  predicate TextFailed(pt: ProcessedText) {
    pt.TextResult? && pt.processed.error.Some? && pt.processed.error.value != []
  }

  /** The check of `processed_text` and what follows it. */
  function CheckedUpdates(taskId: string, s: Services, fullText: string, blocks: seq<Ocr.TextBlock>,
                          language: Option<seq<string>>, pt: ProcessedText): seq<StatusUpdate>
  {
    if TextFailed(pt) then [Fail("文本处理失败: " + pt.processed.error.value)]
    else [Progress(TextProcessing, "text_processing", "completed")]
         + FinalUpdates(taskId, s, fullText, blocks, language, Some(pt))
  }

  /** The text step and what follows, once OCR produced `fullText`. */
  function TextUpdates(taskId: string, s: Services, fullText: string, blocks: seq<Ocr.TextBlock>,
                       language: Option<seq<string>>): seq<StatusUpdate>
  {
    if fullText == [] then FinalUpdates(taskId, s, fullText, blocks, language, None)
    else if !s.textReady then
      CheckedUpdates(taskId, s, fullText, blocks, language, Unprocessed(fullText, TextProcessorMissing))
    else
      [Progress(TextProcessing, "text_processing", "processing")]
      + CheckedUpdates(taskId, s, fullText, blocks, language, TextResult(TP.ProcessOcrText(fullText, s.llm)))
  }

  /** What follows the extraction's outcome. */
  function ExtractionUpdates(taskId: string, s: Services, e: Ocr.Extraction): seq<StatusUpdate> {
    match e
    case IndexErrorRaised => [Fail("处理失败: " + IndexErrorMessage)]
    case ExtractError(message) => [Fail("OCR识别失败: " + message)]
    case Extracted(fullText, blocks, language) =>
      [Progress(OcrCompleted, "ocr", "completed")] + TextUpdates(taskId, s, fullText, blocks, language)
  }

  /** The OCR call and what follows it. */
  function OcrUpdates(taskId: string, s: Services): seq<StatusUpdate> {
    match s.ocr
    case OcrRequestFailed(reason) => [Fail("处理失败: API请求失败: " + reason)]
    case OcrReplied(reply) => ExtractionUpdates(taskId, s, Ocr.ExtractText(reply, Ocr.DocumentTextDetection))
  }

  /** Every `update_task_status` call of `process_image_task`, in order. */
  function Updates(taskId: string, s: Services): seq<StatusUpdate> {
    [StatusUpdate(Processing, None, None, None)]
    + if !s.ocrReady then [Fail(OcrMissing)]
      else [Progress(Processing, "ocr", "processing")] + OcrUpdates(taskId, s)
  }

  /* ------------------------------------------------------- properties of the update log */

  /** An update made while the job is still running: no final status, no result, no error. */
  predicate Intermediate(u: StatusUpdate) {
    !u.status.IsTerminal() && u.result.None? && u.error.None?
  }

  /** The job's last update: COMPLETED with a result, or FAILED with an error message. */
  predicate Final(u: StatusUpdate) {
    || (u.status == Completed && u.result.Some? && u.error.None?)
    || (u.status == Failed && ErrorGiven(u.error) && u.result.None?)
  }

  /** A log whose last update is final and whose other updates are intermediate. */
  predicate EndsOnce(log: seq<StatusUpdate>) {
    && |log| > 0
    && Final(log[|log| - 1])
    && forall i :: 0 <= i < |log| - 1 ==> Intermediate(log[i])
  }

  lemma EndsOnceAfter(pre: seq<StatusUpdate>, rest: seq<StatusUpdate>)
    requires forall i :: 0 <= i < |pre| ==> Intermediate(pre[i])
    requires EndsOnce(rest)
    ensures EndsOnce(pre + rest)
  {
    var log := pre + rest;
    assert log[|log| - 1] == rest[|rest| - 1];
    forall i | 0 <= i < |log| - 1 ensures Intermediate(log[i]) {
      if i >= |pre| {
        assert log[i] == rest[i - |pre|];
      }
    }
  }

  lemma FinalUpdatesEnd(taskId: string, s: Services, fullText: string, blocks: seq<Ocr.TextBlock>,
                        language: Option<seq<string>>, pt: Option<ProcessedText>)
    ensures EndsOnce(FinalUpdates(taskId, s, fullText, blocks, language, pt))
  {
  }

  lemma CheckedUpdatesEnd(taskId: string, s: Services, fullText: string, blocks: seq<Ocr.TextBlock>,
                          language: Option<seq<string>>, pt: ProcessedText)
    ensures EndsOnce(CheckedUpdates(taskId, s, fullText, blocks, language, pt))
  {
    if !TextFailed(pt) {
      FinalUpdatesEnd(taskId, s, fullText, blocks, language, Some(pt));
      EndsOnceAfter([Progress(TextProcessing, "text_processing", "completed")],
                    FinalUpdates(taskId, s, fullText, blocks, language, Some(pt)));
    }
  }

  lemma TextUpdatesEnd(taskId: string, s: Services, fullText: string, blocks: seq<Ocr.TextBlock>,
                       language: Option<seq<string>>)
    ensures EndsOnce(TextUpdates(taskId, s, fullText, blocks, language))
  {
    if fullText == [] {
      FinalUpdatesEnd(taskId, s, fullText, blocks, language, None);
    } else if !s.textReady {
      CheckedUpdatesEnd(taskId, s, fullText, blocks, language, Unprocessed(fullText, TextProcessorMissing));
    } else {
      var pt := TextResult(TP.ProcessOcrText(fullText, s.llm));
      CheckedUpdatesEnd(taskId, s, fullText, blocks, language, pt);
      EndsOnceAfter([Progress(TextProcessing, "text_processing", "processing")],
                    CheckedUpdates(taskId, s, fullText, blocks, language, pt));
    }
  }

  lemma ExtractionUpdatesEnd(taskId: string, s: Services, e: Ocr.Extraction)
    ensures EndsOnce(ExtractionUpdates(taskId, s, e))
  {
    if e.Extracted? {
      TextUpdatesEnd(taskId, s, e.fullText, e.textBlocks, e.language);
      EndsOnceAfter([Progress(OcrCompleted, "ocr", "completed")],
                    TextUpdates(taskId, s, e.fullText, e.textBlocks, e.language));
    }
  }

  /**
   * Every run of the job ends in exactly one final update, COMPLETED with a result or FAILED
   * with a message, and its first update sets PROCESSING.
   */
  lemma UpdatesEnd(taskId: string, s: Services)
    ensures EndsOnce(Updates(taskId, s))
    ensures Updates(taskId, s)[0].status == Processing
  {
    var start := [StatusUpdate(Processing, None, None, None)];
    if s.ocrReady {
      if s.ocr.OcrReplied? {
        ExtractionUpdatesEnd(taskId, s, Ocr.ExtractText(s.ocr.reply, Ocr.DocumentTextDetection));
      }
      EndsOnceAfter(start + [Progress(Processing, "ocr", "processing")], OcrUpdates(taskId, s));
      AppendAssoc(start, [Progress(Processing, "ocr", "processing")], OcrUpdates(taskId, s));
    } else {
      EndsOnceAfter(start, [Fail(OcrMissing)]);
    }
  }

  /** The stage events of a log, in order. */
  function Events(log: seq<StatusUpdate>): seq<StageEvent> {
    if log == [] then []
    else (if log[0].event.Some? then [log[0].event.value] else []) + Events(log[1..])
  }

  lemma {:induction false} EventsAppend(a: seq<StatusUpdate>, b: seq<StatusUpdate>)
    ensures Events(a + b) == Events(a) + Events(b)
  {
    if a != [] {
      var head := if a[0].event.Some? then [a[0].event.value] else [];
      assert (a + b)[0] == a[0];
      assert (a + b)[1..] == a[1..] + b;
      EventsAppend(a[1..], b);
      AppendAssoc(head, Events(a[1..]), Events(b));
    } else {
      assert a + b == b;
    }
  }

  const OcrProcessing := StageEvent("ocr", "processing")
  const OcrCompletedEvent := StageEvent("ocr", "completed")
  const TextProcessingEvent := StageEvent("text_processing", "processing")
  const TextCompletedEvent := StageEvent("text_processing", "completed")
  const TtsProcessingEvent := StageEvent("tts", "processing")
  const TtsCompletedEvent := StageEvent("tts", "completed")

  /** The stages in order, each going from processing to completed. */
  const StageOrder := [OcrProcessing, OcrCompletedEvent, TextProcessingEvent, TextCompletedEvent,
                       TtsProcessingEvent, TtsCompletedEvent]

  /** The TTS step's events, when it runs. */
  function TtsEvents(speak: bool): seq<StageEvent> {
    if speak then [TtsProcessingEvent, TtsCompletedEvent] else []
  }

  lemma FinalEvents(taskId: string, s: Services, fullText: string, blocks: seq<Ocr.TextBlock>,
                    language: Option<seq<string>>, pt: Option<ProcessedText>)
    ensures Events(FinalUpdates(taskId, s, fullText, blocks, language, pt)) == TtsEvents(s.ttsReady && pt.Some?)
  {
    var speak := s.ttsReady && pt.Some?;
    var urls := if speak then AudioUrls(taskId, pt.value, s.tts) else map[];
    var last := [StatusUpdate(Completed, None, Some(PipelineResult(fullText, blocks, language, pt, urls)), None)];
    var tts := if speak then [Progress(TtsGenerating, "tts", "processing"), Progress(TtsGenerating, "tts", "completed")] else [];
    EventsAppend(tts, last);
  }

  lemma CheckedEvents(taskId: string, s: Services, fullText: string, blocks: seq<Ocr.TextBlock>,
                      language: Option<seq<string>>, pt: ProcessedText)
    ensures Events(CheckedUpdates(taskId, s, fullText, blocks, language, pt))
            == if TextFailed(pt) then [] else [TextCompletedEvent] + TtsEvents(s.ttsReady)
  {
    if !TextFailed(pt) {
      FinalEvents(taskId, s, fullText, blocks, language, Some(pt));
      EventsAppend([Progress(TextProcessing, "text_processing", "completed")],
                   FinalUpdates(taskId, s, fullText, blocks, language, Some(pt)));
    }
  }

  /** The text step's events follow text processing, then TTS. */
  lemma TextEvents(taskId: string, s: Services, fullText: string, blocks: seq<Ocr.TextBlock>,
                   language: Option<seq<string>>)
    ensures IsSubsequence(Events(TextUpdates(taskId, s, fullText, blocks, language)), StageOrder[2..])
  {
    var tts := [TtsProcessingEvent, TtsCompletedEvent];
    assert StageOrder[2..] == [TextProcessingEvent] + ([TextCompletedEvent] + tts);
    var ttsSub := TtsEvents(s.ttsReady);
    assert IsSubsequence(ttsSub, tts) by {
      SubsequenceRefl(tts);
    }
    if fullText == [] {
      FinalEvents(taskId, s, fullText, blocks, language, None);
      SubsequenceSkip(TextCompletedEvent, TtsEvents(false), tts);
      SubsequenceSkip(TextProcessingEvent, TtsEvents(false), [TextCompletedEvent] + tts);
    } else {
      SubsequenceCons(TextCompletedEvent, ttsSub, tts);
      if !s.textReady {
        CheckedEvents(taskId, s, fullText, blocks, language, Unprocessed(fullText, TextProcessorMissing));
        SubsequenceSkip(TextProcessingEvent, [TextCompletedEvent] + ttsSub, [TextCompletedEvent] + tts);
      } else {
        var pt := TextResult(TP.ProcessOcrText(fullText, s.llm));
        CheckedEvents(taskId, s, fullText, blocks, language, pt);
        var checked := Events(CheckedUpdates(taskId, s, fullText, blocks, language, pt));
        EventsAppend([Progress(TextProcessing, "text_processing", "processing")],
                     CheckedUpdates(taskId, s, fullText, blocks, language, pt));
        SubsequenceCons(TextProcessingEvent, checked, [TextCompletedEvent] + tts);
      }
    }
  }

  /** The events from the extraction on follow OCR completion, then the text step. */
  lemma ExtractionEvents(taskId: string, s: Services, e: Ocr.Extraction)
    ensures IsSubsequence(Events(ExtractionUpdates(taskId, s, e)), StageOrder[1..])
  {
    assert StageOrder[1..] == [OcrCompletedEvent] + StageOrder[2..];
    if e.Extracted? {
      var rest := TextUpdates(taskId, s, e.fullText, e.textBlocks, e.language);
      TextEvents(taskId, s, e.fullText, e.textBlocks, e.language);
      EventsAppend([Progress(OcrCompleted, "ocr", "completed")], rest);
      SubsequenceCons(OcrCompletedEvent, Events(rest), StageOrder[2..]);
    }
  }

  /**
   * The stage events of a run follow `StageOrder` with some left out: OCR, then text
   * processing, then TTS, and within each stage processing before completed.
   */
  lemma UpdatesFollowStageOrder(taskId: string, s: Services)
    ensures IsSubsequence(Events(Updates(taskId, s)), StageOrder)
  {
    var start := [StatusUpdate(Processing, None, None, None)];
    if !s.ocrReady {
      EventsAppend(start, [Fail(OcrMissing)]);
    } else {
      var ocrStart := [Progress(Processing, "ocr", "processing")];
      assert Updates(taskId, s) == start + (ocrStart + OcrUpdates(taskId, s));
      EventsAppend(start, ocrStart + OcrUpdates(taskId, s));
      EventsAppend(ocrStart, OcrUpdates(taskId, s));
      assert Events(start) == [] && Events(ocrStart) == [OcrProcessing];
      assert StageOrder == [OcrProcessing] + StageOrder[1..];
      if s.ocr.OcrReplied? {
        ExtractionEvents(taskId, s, Ocr.ExtractText(s.ocr.reply, Ocr.DocumentTextDetection));
      } else {
        assert Events(OcrUpdates(taskId, s)) == [];
      }
      SubsequenceCons(OcrProcessing, Events(OcrUpdates(taskId, s)), StageOrder[1..]);
      assert Events(Updates(taskId, s)) == [OcrProcessing] + Events(OcrUpdates(taskId, s));
    }
  }

  /** When OCR is missing or fails, the job fails without touching the text or TTS stages. */
  lemma OcrFailureStops(taskId: string, s: Services)
    requires !s.ocrReady || s.ocr.OcrRequestFailed?
             || !Ocr.ExtractText(s.ocr.reply, Ocr.DocumentTextDetection).Extracted?
    ensures Events(Updates(taskId, s)) == if s.ocrReady then [OcrProcessing] else []
    ensures Updates(taskId, s)[|Updates(taskId, s)| - 1].status == Failed
  {
    var start := [StatusUpdate(Processing, None, None, None)];
    if !s.ocrReady {
      EventsAppend(start, [Fail(OcrMissing)]);
    } else {
      var ocrStart := [Progress(Processing, "ocr", "processing")];
      EventsAppend(start, ocrStart + OcrUpdates(taskId, s));
      EventsAppend(ocrStart, OcrUpdates(taskId, s));
      assert |OcrUpdates(taskId, s)| == 1;
    }
  }

  /**
   * A completed run stored the extraction's text, blocks and language; a processed text
   * exactly when OCR found text; the text processor's result when it exists; and audio
   * only when a TTS client exists.
   */
  lemma CompletedResult(taskId: string, s: Services)
    requires Updates(taskId, s)[|Updates(taskId, s)| - 1].status == Completed
    ensures s.ocrReady && s.ocr.OcrReplied?
    ensures Updates(taskId, s)[|Updates(taskId, s)| - 1].result.Some?
    ensures var e := Ocr.ExtractText(s.ocr.reply, Ocr.DocumentTextDetection);
            var r := Updates(taskId, s)[|Updates(taskId, s)| - 1].result.value;
            && e.Extracted?
            && r.fullText == e.fullText && r.textBlocks == e.textBlocks && r.language == e.language
            && (r.processedText.None? <==> e.fullText == [])
            && (e.fullText != [] && !s.textReady ==>
                  r.processedText == Some(Unprocessed(e.fullText, TextProcessorMissing)))
            && (e.fullText != [] && s.textReady ==>
                  r.processedText == Some(TextResult(TP.ProcessOcrText(e.fullText, s.llm))))
            && (r.processedText.Some? && r.processedText.value.TextResult? ==> r.processedText.value.processed.error.None?)
            && r.audioUrls == (if s.ttsReady && r.processedText.Some? then AudioUrls(taskId, r.processedText.value, s.tts)
                               else map[])
  {
    UpdatesLast(taskId, s);
    assert s.ocrReady && s.ocr.OcrReplied?;
    var e := Ocr.ExtractText(s.ocr.reply, Ocr.DocumentTextDetection);
    ExtractionLast(taskId, s, e);
    assert e.Extracted?;
    var text, blocks, language := e.fullText, e.textBlocks, e.language;
    TextLast(taskId, s, text, blocks, language);
    var unprocessed := Unprocessed(text, TextProcessorMissing);
    var processed := TextResult(TP.ProcessOcrText(text, s.llm));
    CheckedLast(taskId, s, text, blocks, language, unprocessed);
    CheckedLast(taskId, s, text, blocks, language, processed);
  }

  /** The last update of a non-empty log. */
  function Last(log: seq<StatusUpdate>): StatusUpdate
    requires log != []
  {
    log[|log| - 1]
  }

  lemma LastAfter(pre: seq<StatusUpdate>, rest: seq<StatusUpdate>)
    requires rest != []
    ensures Last(pre + rest) == Last(rest)
  {
  }

  /** The run's last update comes from the extraction, or the run failed before it. */
  lemma UpdatesLast(taskId: string, s: Services)
    ensures !s.ocrReady || s.ocr.OcrRequestFailed? ==> Last(Updates(taskId, s)).status == Failed
    ensures s.ocrReady && s.ocr.OcrReplied? ==>
              var e := Ocr.ExtractText(s.ocr.reply, Ocr.DocumentTextDetection);
              ExtractionUpdates(taskId, s, e) != [] &&
              Last(Updates(taskId, s)) == Last(ExtractionUpdates(taskId, s, e))
  {
    var start := [StatusUpdate(Processing, None, None, None)];
    var ocrStart := [Progress(Processing, "ocr", "processing")];
    if s.ocrReady {
      UpdatesEnd(taskId, s);
      assert Updates(taskId, s) == (start + ocrStart) + OcrUpdates(taskId, s);
      LastAfter(start + ocrStart, OcrUpdates(taskId, s));
    }
  }

  /** The extraction's last update comes from the text step, unless extraction failed. */
  lemma ExtractionLast(taskId: string, s: Services, e: Ocr.Extraction)
    ensures ExtractionUpdates(taskId, s, e) != []
    ensures !e.Extracted? ==> Last(ExtractionUpdates(taskId, s, e)).status == Failed
    ensures e.Extracted? ==>
              var rest := TextUpdates(taskId, s, e.fullText, e.textBlocks, e.language);
              rest != [] && Last(ExtractionUpdates(taskId, s, e)) == Last(rest)
  {
    if e.Extracted? {
      var rest := TextUpdates(taskId, s, e.fullText, e.textBlocks, e.language);
      TextUpdatesEnd(taskId, s, e.fullText, e.textBlocks, e.language);
      LastAfter([Progress(OcrCompleted, "ocr", "completed")], rest);
    }
  }

  /** The text step's last update, by which text the TTS step receives. */
  lemma TextLast(taskId: string, s: Services, fullText: string, blocks: seq<Ocr.TextBlock>,
                 language: Option<seq<string>>)
    ensures TextUpdates(taskId, s, fullText, blocks, language) != []
    ensures fullText == [] ==>
              Last(TextUpdates(taskId, s, fullText, blocks, language))
              == Last(FinalUpdates(taskId, s, fullText, blocks, language, None))
    ensures fullText != [] && !s.textReady ==>
              Last(TextUpdates(taskId, s, fullText, blocks, language))
              == Last(CheckedUpdates(taskId, s, fullText, blocks, language, Unprocessed(fullText, TextProcessorMissing)))
    ensures fullText != [] && s.textReady ==>
              Last(TextUpdates(taskId, s, fullText, blocks, language))
              == Last(CheckedUpdates(taskId, s, fullText, blocks, language,
                                     TextResult(TP.ProcessOcrText(fullText, s.llm))))
  {
    TextUpdatesEnd(taskId, s, fullText, blocks, language);
    if fullText != [] && s.textReady {
      var pt := TextResult(TP.ProcessOcrText(fullText, s.llm));
      CheckedUpdatesEnd(taskId, s, fullText, blocks, language, pt);
      LastAfter([Progress(TextProcessing, "text_processing", "processing")],
                CheckedUpdates(taskId, s, fullText, blocks, language, pt));
    }
  }

  /** A checked text either fails the run or ends it with the result holding that text. */
  lemma CheckedLast(taskId: string, s: Services, fullText: string, blocks: seq<Ocr.TextBlock>,
                    language: Option<seq<string>>, pt: ProcessedText)
    ensures CheckedUpdates(taskId, s, fullText, blocks, language, pt) != []
    ensures TextFailed(pt) ==> Last(CheckedUpdates(taskId, s, fullText, blocks, language, pt)).status == Failed
    ensures !TextFailed(pt) ==>
              var urls := if s.ttsReady then AudioUrls(taskId, pt, s.tts) else map[];
              Last(CheckedUpdates(taskId, s, fullText, blocks, language, pt))
              == StatusUpdate(Completed, None, Some(PipelineResult(fullText, blocks, language, Some(pt), urls)), None)
  {
    if !TextFailed(pt) {
      var final := FinalUpdates(taskId, s, fullText, blocks, language, Some(pt));
      LastAfter([Progress(TextProcessing, "text_processing", "completed")], final);
    }
  }

  /** One update applied to the table, as `update_task_status` does at time `now`. */
  function Apply(tasks: map<string, Task<PipelineResult>>, id: string, u: StatusUpdate, now: int)
    : map<string, Task<PipelineResult>>
  {
    if id in tasks then tasks[id := Updated(tasks[id], u.status, ProgressMap(u.event), u.result, u.error, now)]
    else tasks
  }

  /** The updates applied in order, the k-th at time `clock(k)`. */
  function ApplyAll(tasks: map<string, Task<PipelineResult>>, id: string, log: seq<StatusUpdate>,
                    clock: nat -> int): map<string, Task<PipelineResult>>
  {
    if log == [] then tasks
    else Apply(ApplyAll(tasks, id, log[..|log| - 1], clock), id, log[|log| - 1], clock(|log| - 1))
  }

  lemma ApplyAllSnoc(tasks: map<string, Task<PipelineResult>>, id: string, log: seq<StatusUpdate>,
                     u: StatusUpdate, clock: nat -> int)
    ensures ApplyAll(tasks, id, log + [u], clock) == Apply(ApplyAll(tasks, id, log, clock), id, u, clock(|log|))
  {
    assert (log + [u])[..|log|] == log;
  }

  /** Applying updates for one task leaves the table's ids and every other task alone. */
  lemma {:induction false} ApplyAllFrame(tasks: map<string, Task<PipelineResult>>, id: string,
                                         log: seq<StatusUpdate>, clock: nat -> int)
    ensures ApplyAll(tasks, id, log, clock).Keys == tasks.Keys
    ensures forall k :: k in tasks && k != id ==> ApplyAll(tasks, id, log, clock)[k] == tasks[k]
  {
    if log != [] {
      ApplyAllFrame(tasks, id, log[..|log| - 1], clock);
    }
  }

  /**
   * After the job the task is COMPLETED holding the job's result, or FAILED holding its
   * message; every other task is as it was.
   */
  lemma JobLeavesTaskFinal(tasks: map<string, Task<PipelineResult>>, id: string, s: Services, clock: nat -> int)
    requires id in tasks
    ensures var after := ApplyAll(tasks, id, Updates(id, s), clock);
            var last := Updates(id, s)[|Updates(id, s)| - 1];
            && after.Keys == tasks.Keys
            && (forall k :: k in tasks && k != id ==> after[k] == tasks[k])
            && (after[id].status == Completed || after[id].status == Failed)
            && (after[id].status == Completed ==> last.status == Completed && after[id].result == last.result)
            && (after[id].status == Failed ==> last.status == Failed && after[id].error == last.error)
  {
    var log := Updates(id, s);
    UpdatesEnd(id, s);
    ApplyAllFrame(tasks, id, log, clock);
    ApplyAllFrame(tasks, id, log[..|log| - 1], clock);
  }

  /* ------------------------------------------------------------------- the job */

  lemma AppendAssoc<T>(a: seq<T>, b: seq<T>, c: seq<T>)
    ensures a + (b + c) == (a + b) + c
  {
  }

  /**
   * One `update_task_status` call with the arguments `u` carries, the k-th of the job:
   * the table goes from `log` applied to `t0` to `log + [u]` applied to it.
   */
  method Report(tm: TaskManager<PipelineResult>, taskId: string, u: StatusUpdate, clock: nat -> int, k: nat,
                ghost t0: map<string, Task<PipelineResult>>, ghost log: seq<StatusUpdate>)
    requires tm.Valid() && k == |log| && tm.tasks == ApplyAll(t0, taskId, log, clock)
    modifies tm
    ensures tm.Valid()
    ensures tm.tasks == ApplyAll(t0, taskId, log + [u], clock)
  {
    ApplyAllSnoc(t0, taskId, log, u, clock);
    tm.UpdateTaskStatus(taskId, u.status, ProgressMap(u.event), u.result, u.error, clock(k));
  }

  /**
   * `process_image_task(task_id, image_path)`: OCR, text processing and speech synthesis,
   * each reported to the table; the k-th update is stamped `clock(k)`.
   */
  method ProcessImageTask(tm: TaskManager<PipelineResult>, taskId: string, s: Services, clock: nat -> int)
    requires tm.Valid()
    modifies tm
    ensures tm.Valid()
    ensures tm.tasks == ApplyAll(old(tm.tasks), taskId, Updates(taskId, s), clock)
  {
    ghost var t0 := tm.tasks;
    ghost var log: seq<StatusUpdate> := [];
    var k := 0;
    Report(tm, taskId, StatusUpdate(Processing, None, None, None), clock, k, t0, log);
    log, k := log + [StatusUpdate(Processing, None, None, None)], k + 1;

    if !s.ocrReady {
      Report(tm, taskId, Fail(OcrMissing), clock, k, t0, log);
      log := log + [Fail(OcrMissing)];
      return;
    }
    Report(tm, taskId, Progress(Processing, "ocr", "processing"), clock, k, t0, log);
    log, k := log + [Progress(Processing, "ocr", "processing")], k + 1;
    assert Updates(taskId, s) == log + OcrUpdates(taskId, s) by {
      assert log == [StatusUpdate(Processing, None, None, None), Progress(Processing, "ocr", "processing")];
      AppendAssoc([StatusUpdate(Processing, None, None, None)], [Progress(Processing, "ocr", "processing")],
                  OcrUpdates(taskId, s));
    }
    OcrStage(tm, taskId, s, clock, k, t0, log);
  }

  /** The OCR call of `process_image_task` and what follows it, after `log` was applied to `t0`. */
  method OcrStage(tm: TaskManager<PipelineResult>, taskId: string, s: Services, clock: nat -> int, k: nat,
                  ghost t0: map<string, Task<PipelineResult>>, ghost log: seq<StatusUpdate>)
    requires tm.Valid() && k == |log| && tm.tasks == ApplyAll(t0, taskId, log, clock)
    modifies tm
    ensures tm.Valid()
    ensures tm.tasks == ApplyAll(t0, taskId, log + OcrUpdates(taskId, s), clock)
  {
    match s.ocr {
      case OcrRequestFailed(reason) =>
        Report(tm, taskId, Fail("处理失败: API请求失败: " + reason), clock, k, t0, log);
      case OcrReplied(reply) =>
        var ocrResult := Ocr.ExtractText(reply, Ocr.DocumentTextDetection);
        ExtractionStage(tm, taskId, s, ocrResult, clock, k, t0, log);
    }
  }

  /** What `process_image_task` does with the outcome of `extract_text`. */
  method ExtractionStage(tm: TaskManager<PipelineResult>, taskId: string, s: Services, ocrResult: Ocr.Extraction,
                         clock: nat -> int, k: nat,
                         ghost t0: map<string, Task<PipelineResult>>, ghost log: seq<StatusUpdate>)
    requires tm.Valid() && k == |log| && tm.tasks == ApplyAll(t0, taskId, log, clock)
    modifies tm
    ensures tm.Valid()
    ensures tm.tasks == ApplyAll(t0, taskId, log + ExtractionUpdates(taskId, s, ocrResult), clock)
  {
    if ocrResult.IndexErrorRaised? {
      Report(tm, taskId, Fail("处理失败: " + IndexErrorMessage), clock, k, t0, log);
      return;
    }
    if ocrResult.ExtractError? {
      Report(tm, taskId, Fail("OCR识别失败: " + ocrResult.message), clock, k, t0, log);
      return;
    }
    var event := Progress(OcrCompleted, "ocr", "completed");
    Report(tm, taskId, event, clock, k, t0, log);
    var rest := TextUpdates(taskId, s, ocrResult.fullText, ocrResult.textBlocks, ocrResult.language);
    assert ExtractionUpdates(taskId, s, ocrResult) == [event] + rest;
    AppendAssoc(log, [event], rest);
    TextStage(tm, taskId, s, ocrResult.fullText, ocrResult.textBlocks, ocrResult.language, clock, k + 1, t0,
              log + [event]);
  }

  /** The text step of `process_image_task`: `processed_text` and what follows it. */
  method TextStage(tm: TaskManager<PipelineResult>, taskId: string, s: Services, fullText: string,
                   blocks: seq<Ocr.TextBlock>, language: Option<seq<string>>, clock: nat -> int, k: nat,
                   ghost t0: map<string, Task<PipelineResult>>, ghost log: seq<StatusUpdate>)
    requires tm.Valid() && k == |log| && tm.tasks == ApplyAll(t0, taskId, log, clock)
    modifies tm
    ensures tm.Valid()
    ensures tm.tasks == ApplyAll(t0, taskId, log + TextUpdates(taskId, s, fullText, blocks, language), clock)
  {
    if fullText == [] {
      SpeechStage(tm, taskId, s, fullText, blocks, language, None, clock, k, t0, log);
    } else if !s.textReady {
      CheckStage(tm, taskId, s, fullText, blocks, language, Unprocessed(fullText, TextProcessorMissing),
                 clock, k, t0, log);
    } else {
      var event := Progress(TextProcessing, "text_processing", "processing");
      Report(tm, taskId, event, clock, k, t0, log);
      var processed := TP.ProcessOcrText(fullText, s.llm);
      var rest := CheckedUpdates(taskId, s, fullText, blocks, language, TextResult(processed));
      assert TextUpdates(taskId, s, fullText, blocks, language) == [event] + rest;
      AppendAssoc(log, [event], rest);
      CheckStage(tm, taskId, s, fullText, blocks, language, TextResult(processed), clock, k + 1, t0, log + [event]);
    }
  }

  /** The error check on `processed_text`, then the TTS step. */
  method CheckStage(tm: TaskManager<PipelineResult>, taskId: string, s: Services, fullText: string,
                    blocks: seq<Ocr.TextBlock>, language: Option<seq<string>>, processedText: ProcessedText,
                    clock: nat -> int, k: nat,
                    ghost t0: map<string, Task<PipelineResult>>, ghost log: seq<StatusUpdate>)
    requires tm.Valid() && k == |log| && tm.tasks == ApplyAll(t0, taskId, log, clock)
    modifies tm
    ensures tm.Valid()
    ensures tm.tasks == ApplyAll(t0, taskId, log + CheckedUpdates(taskId, s, fullText, blocks, language, processedText), clock)
  {
    if TextFailed(processedText) {
      Report(tm, taskId, Fail("文本处理失败: " + processedText.processed.error.value), clock, k, t0, log);
      return;
    }
    var event := Progress(TextProcessing, "text_processing", "completed");
    Report(tm, taskId, event, clock, k, t0, log);
    var rest := FinalUpdates(taskId, s, fullText, blocks, language, Some(processedText));
    assert CheckedUpdates(taskId, s, fullText, blocks, language, processedText) == [event] + rest;
    AppendAssoc(log, [event], rest);
    SpeechStage(tm, taskId, s, fullText, blocks, language, Some(processedText), clock, k + 1, t0, log + [event]);
  }

  /** The audio files of the TTS step: the segments, then the main text, then the instruction. */
  method SpeechUrls(taskId: string, pt: ProcessedText, tts: string -> Speech.TtsReply)
    returns (audioUrls: map<string, string>)
    ensures audioUrls == AudioUrls(taskId, pt, tts)
  {
    audioUrls := SegmentUrlsLoop(taskId, SegmentsOf(pt), tts);
    var mainText := MainTextOf(pt);
    if !IsBlank(mainText) {
      var ttsResult := Speech.SynthesizeJapanese(mainText, Speech.DefaultVoice, "mp3", None, tts(mainText));
      if ttsResult.Synthesized? {
        audioUrls := audioUrls["main" := AudioUrl(taskId, "main")];
      }
    }
    var instruction := InstructionOf(pt);
    if !IsBlank(instruction) {
      var ttsResult := Speech.SynthesizeJapanese(instruction, Speech.DefaultVoice, "mp3", None, tts(instruction));
      if ttsResult.Synthesized? {
        audioUrls := audioUrls["instruction" := AudioUrl(taskId, "instruction")];
      }
    }
  }

  /** The TTS step of `process_image_task` and its final update. */
  method SpeechStage(tm: TaskManager<PipelineResult>, taskId: string, s: Services, fullText: string,
                     blocks: seq<Ocr.TextBlock>, language: Option<seq<string>>,
                     processedText: Option<ProcessedText>, clock: nat -> int, k: nat,
                     ghost t0: map<string, Task<PipelineResult>>, ghost log: seq<StatusUpdate>)
    requires tm.Valid() && k == |log| && tm.tasks == ApplyAll(t0, taskId, log, clock)
    modifies tm
    ensures tm.Valid()
    ensures tm.tasks == ApplyAll(t0, taskId, log + FinalUpdates(taskId, s, fullText, blocks, language, processedText), clock)
  {
    var k := k;
    ghost var log := log;
    ghost var whole := log + FinalUpdates(taskId, s, fullText, blocks, language, processedText);
    var audioUrls: map<string, string> := map[];
    if s.ttsReady && processedText.Some? {
      Report(tm, taskId, Progress(TtsGenerating, "tts", "processing"), clock, k, t0, log);
      log, k := log + [Progress(TtsGenerating, "tts", "processing")], k + 1;
      audioUrls := SpeechUrls(taskId, processedText.value, s.tts);
      Report(tm, taskId, Progress(TtsGenerating, "tts", "completed"), clock, k, t0, log);
      log, k := log + [Progress(TtsGenerating, "tts", "completed")], k + 1;
    }
    var final := StatusUpdate(Completed, None, Some(PipelineResult(fullText, blocks, language, processedText, audioUrls)), None);
    assert whole == log + [final];
    Report(tm, taskId, final, clock, k, t0, log);
  }
}
