/**
 * `TextToSpeech.synthesize_japanese` of text_to_speech.py: the blank-text guard, the
 * output-format normalisation, the request it builds, and the classification of the
 * service's reply into audio or an error. The HTTP exchange is an input: the reply it gave.
 */
module Speech {
  import opened Common
  import opened Strings

  /** The default voice of `synthesize_japanese`. */
  const DefaultVoice := "ja-JP-Neural2-B"

  /** The output formats with an encoding; any other requested format falls back to mp3. */
  predicate KnownFormat(f: string) {
    f == "mp3" || f == "wav" || f == "ogg"
  }

  /** The lower-cased format actually used: the request's own when known, mp3 otherwise. */
  function NormalizeFormat(outputFormat: string): (f: string)
    ensures KnownFormat(f)
    ensures KnownFormat(Lower(outputFormat)) <==> f == Lower(outputFormat)
    ensures !KnownFormat(Lower(outputFormat)) ==> f == "mp3"
  {
    var lower := Lower(outputFormat);
    if KnownFormat(lower) then lower else "mp3"
  }

  /** The REST API's `audioEncoding` for a known format. */
  function Encoding(f: string): string
    requires KnownFormat(f)
  {
    if f == "mp3" then "MP3" else if f == "wav" then "LINEAR16" else "OGG_OPUS"
  }

  /** Format matching ignores case: a format and its lower-cased form normalise alike. */
  lemma NormalizeFormatIgnoresCase(outputFormat: string)
    ensures NormalizeFormat(Lower(outputFormat)) == NormalizeFormat(outputFormat)
  {
    LowerIdempotent(outputFormat);
  }

  /** The three encodings are distinct, so the format can be read back from the request. */
  lemma EncodingInjective(f1: string, f2: string)
    requires KnownFormat(f1) && KnownFormat(f2)
    ensures Encoding(f1) == Encoding(f2) <==> f1 == f2
  {
  }

  /** The request body; speaking rate, pitch and volume gain are floats and not modelled. */
  datatype TtsRequest = TtsRequest(
    text: string,
    languageCode: string,
    voiceName: string,
    audioEncoding: string,
    model: Option<string>)

  /** The request `synthesize_japanese` sends for a non-blank text. */
  function BuildRequest(text: string, voiceName: string, outputFormat: string, model: Option<string>)
    : (req: TtsRequest)
    ensures req.text == text && req.languageCode == "ja-JP" && req.voiceName == voiceName
    ensures req.audioEncoding == Encoding(NormalizeFormat(outputFormat))
    ensures req.model.Some? <==> model.Some? && model.value != []
    ensures req.model.Some? ==> req.model == model
  {
    var config := if model.Some? && model.value != [] then model else None;
    TtsRequest(text, "ja-JP", voiceName, Encoding(NormalizeFormat(outputFormat)), config)
  }

  /** The `error` object of a JSON reply. */
  datatype ApiError = ApiError(message: Option<string>, details: seq<string>)

  /** The body of an HTTP reply: not JSON, or the fields the code reads. */
  datatype Body =
    | NotJson(reason: string)
    | Json(error: Option<ApiError>, audioContent: Option<string>)

  /** What the POST to the synthesis endpoint produced. */
  datatype TtsReply =
    | RequestError(reason: string)                    // a `requests` exception
    | OtherError(reason: string)                      // any other exception
    | Response(status: nat, body: Body, text: string) // an HTTP response

  /** The dictionary `synthesize_japanese` returns. */
  datatype SpeechResult =
    | Synthesized(audioContent: string, audioFormat: string, voiceName: string, model: string)
    | SpeechError(error: string, errorDetails: Option<seq<string>>, requestBody: Option<TtsRequest>)

  /**
   * `synthesize_japanese(text, voice_name, output_format, model)` given the reply of the
   * request it sends. The audio stays in the reply's base64 form.
   */
  function SynthesizeJapanese(text: string, voiceName: string, outputFormat: string,
                              model: Option<string>, reply: TtsReply): (r: SpeechResult)
    ensures IsBlank(text) ==> r == SpeechError("输入文本为空", None, None)
    ensures r.Synthesized? <==>
              && !IsBlank(text) && reply.Response? && reply.status == 200
              && reply.body.Json? && reply.body.error.None?
              && reply.body.audioContent.Some? && reply.body.audioContent.value != []
  {
    if IsBlank(text) then SpeechError("输入文本为空", None, None)
    else
      var request := BuildRequest(text, voiceName, outputFormat, model);
      match reply
      case RequestError(e) => SpeechError("TTS API请求失败: " + e, None, None)
      case OtherError(e) => SpeechError("TTS API调用失败: " + e, None, None)
      case Response(status, body, responseText) =>
        if status != 200 then
          match body
          case Json(error, _) =>
            var message :=
              if error.Some? && error.value.message.Some? then error.value.message.value
              else "HTTP " + NatToString(status);
            var details := if error.Some? && error.value.details != [] then Some(error.value.details) else None;
            SpeechError("TTS API错误 (" + NatToString(status) + "): " + message, details, Some(request))
          case NotJson(_) =>
            SpeechError("TTS API请求失败: HTTP " + NatToString(status) + " - " + Take(responseText, 200),
                        None, Some(request))
        else
          match body
          case NotJson(e) => SpeechError("TTS API请求失败: " + e, None, None)
          case Json(error, audio) =>
            if error.Some? then
              SpeechError(error.value.message.GetOr("未知错误"), None, None)
            else if audio.None? || audio.value == [] then
              SpeechError("API返回中没有音频数据", None, None)
            else
              Synthesized(audio.value, NormalizeFormat(outputFormat), voiceName,
                          if model.Some? && model.value != [] then model.value else "default")
  }

  /** A blank text is answered without looking at any reply: no request is made. */
  lemma BlankTextNoRequest(text: string, voiceName: string, outputFormat: string,
                           model: Option<string>, reply1: TtsReply, reply2: TtsReply)
    requires IsBlank(text)
    ensures SynthesizeJapanese(text, voiceName, outputFormat, model, reply1)
            == SynthesizeJapanese(text, voiceName, outputFormat, model, reply2)
  {
  }

  /** A non-200 status is an error that names the status code and carries the request. */
  lemma ErrorStatusNamed(text: string, voiceName: string, outputFormat: string,
                         model: Option<string>, status: nat, body: Body, responseText: string)
    requires !IsBlank(text) && status != 200
    ensures var r := SynthesizeJapanese(text, voiceName, outputFormat, model,
                                        Response(status, body, responseText));
            && r.SpeechError? && Contains(r.error, NatToString(status))
            && r.requestBody == Some(BuildRequest(text, voiceName, outputFormat, model))
  {
    var code := NatToString(status);
    var r := SynthesizeJapanese(text, voiceName, outputFormat, model, Response(status, body, responseText));
    var prefix, suffix;
    match body {
      case Json(error, _) =>
        var message :=
          if error.Some? && error.value.message.Some? then error.value.message.value
          else "HTTP " + code;
        prefix, suffix := "TTS API错误 (", "): " + message;
      case NotJson(_) =>
        prefix, suffix := "TTS API请求失败: HTTP ", " - " + Take(responseText, 200);
    }
    assert r.SpeechError? && r.error == prefix + code + suffix;
    NamesCode(prefix, code, suffix);
  }

  /** A message with the status code written into it contains the code. */
  lemma NamesCode(prefix: string, code: string, suffix: string)
    ensures Contains(prefix + code + suffix, code)
  {
    assert Contains(code, code) by {
      assert StartsWith(code, code);
    }
    ContainsInLarger(code, code, prefix, suffix);
  }

  /**
   * A synthesized result reports the normalised lower-case format, the requested voice and
   * the model, or "default" when none was given.
   */
  lemma SynthesizedFields(text: string, voiceName: string, outputFormat: string,
                          model: Option<string>, reply: TtsReply)
    ensures var r := SynthesizeJapanese(text, voiceName, outputFormat, model, reply);
            r.Synthesized? ==>
              && r.audioFormat == NormalizeFormat(outputFormat) && KnownFormat(r.audioFormat)
              && r.voiceName == voiceName
              && r.audioContent == reply.body.audioContent.value
              && (r.model == "default" <==> model.None? || model.value == [] || model.value == "default")
  {
  }
}
