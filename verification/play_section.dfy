/**
 * Which text a play button of frontend/components/ProcessedTextSection.tsx reads aloud.
 * Absent fields of the processed-text object are `None`; an empty string is falsy.
 */
module PlaySection {
  import opened Common
  import TP = TextProcessing

  /** The processed-text object as the component receives it. */
  datatype ProcessedView = ProcessedView(
    instruction: Option<string>,
    mainText: Option<string>,
    japaneseText: Option<string>,
    segments: Option<seq<string>>)

  /** `x || fallback` for an optional string. */
  function OrElse(x: Option<string>, fallback: string): (r: string)
    ensures x.Some? && x.value != "" ==> r == x.value
    ensures x.None? || x.value == "" ==> r == fallback
  {
    if x.Some? && x.value != "" then x.value else fallback
  }

  /** `main_text || japanese_text || ''` */
  function MainText(v: ProcessedView): (r: string)
    ensures r != "" ==> Some(r) == v.mainText || Some(r) == v.japaneseText
    ensures v.mainText.Some? && v.mainText.value != "" ==> r == v.mainText.value
    ensures r == "" <==> OrElse(v.mainText, "") == "" && OrElse(v.japaneseText, "") == ""
  {
    OrElse(v.mainText, OrElse(v.japaneseText, ""))
  }

  /** `segments || []`: an array, even an empty one, is kept. */
  function Segments(v: ProcessedView): (r: seq<string>)
    ensures v.segments.None? ==> r == []
    ensures v.segments.Some? ==> r == v.segments.value
  {
    v.segments.GetOr([])
  }

  /** The `type` argument of `handlePlaySegment`. */
  datatype PlayType = Instruction | Main | Index(i: int)

  /** The text chosen for `type`, `''` when there is none (an index out of range included). */
  function Selected(v: ProcessedView, t: PlayType): string {
    match t
    case Instruction => OrElse(v.instruction, "")
    case Main => MainText(v)
    case Index(i) => if 0 <= i < |Segments(v)| then Segments(v)[i] else ""
  }

  /**
   * `handlePlaySegment`: the call made to `onPlaySegment`, if any. It is made only with a
   * non-empty text and always with the same type tag it was given.
   */
  function PlayCall(v: ProcessedView, t: PlayType): (call: Option<(string, PlayType)>)
    ensures call.Some? ==> call.value.0 != "" && call.value.1 == t
    ensures t.Instruction? ==> (call.Some? <==> OrElse(v.instruction, "") != "") && (call.Some? ==> Some(call.value.0) == v.instruction)
    ensures t.Main? ==> (call.Some? <==> MainText(v) != "") && (call.Some? ==> call.value.0 == MainText(v))
    ensures t.Index? ==> (call.Some? <==> 0 <= t.i < |Segments(v)| && Segments(v)[t.i] != "")
    ensures t.Index? && call.Some? ==> call.value.0 == Segments(v)[t.i]
  {
    var text := Selected(v, t);
    if text != "" then Some((text, t)) else None
  }

  /** The object the server sends for a processed text: every field present. */
  function FromProcessed(p: TP.Processed): ProcessedView {
    ProcessedView(Some(p.instruction), Some(p.mainText), Some(p.japaneseText), Some(p.segments))
  }

  /**
   * For a text the LLM reply was parsed from, every segment button in range plays its
   * segment: the parser never keeps an empty segment.
   */
  lemma ParsedSegmentsAllPlay(raw: string, reply: TP.LlmReply, i: int)
    requires TP.ProcessOcrText(raw, reply).error == None
    requires 0 <= i < |TP.ProcessOcrText(raw, reply).segments|
    ensures PlayCall(FromProcessed(TP.ProcessOcrText(raw, reply)), Index(i)) == Some((TP.ProcessOcrText(raw, reply).segments[i], Index(i)))
  {
  }
}
