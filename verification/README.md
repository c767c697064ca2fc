# JEhonkid core in Dafny

JEhonkid turns a photo of a Japanese picture-book page into text and speech. The page is
uploaded, OCR reads the text, an LLM splits it into instruction, body and segments, and a
speech service reads each part aloud. The backend keeps one task per upload in a task table,
and the frontend polls that task. This project models the core of that path and proves
properties of the model:

- `Tasks` (task_manager.py): the in-memory task table. It is a class whose `tasks` map its
  methods update. It covers creation, lookup, partial status updates, the one-hour expiry
  sweep, and the status names.
- `App` (app_fastapi.py): the upload endpoint with its extension whitelist, size limit,
  `secure_filename`, default extension and stamped file name. It also has the task query
  endpoint and the catch-all frontend route.
- `Pipeline` (app_fastapi.py `process_image_task`): the background job. It is a method
  that makes its status updates on a `TaskManager`. It is specified by `Updates`, the list
  of updates it makes in order for given service answers.
- `Ocr` (picture_to_text.py `extract_text`): how a Vision reply becomes the full text,
  the text blocks and the detected language.
- `TextProcessing` (text_processor.py): `process_ocr_text`, the line parser
  `_parse_response` with its fallbacks, and the loop of `_auto_segment`.
- `Segmenter` (text_processor.py `_auto_segment`, and its copy in
  test_segmentation_simple.py): `re.split` on sentence ends, sentence re-assembly and
  grouping into segments, as functions.
- `Speech` (text_to_speech.py `synthesize_japanese`): the request that is built and the
  outcome for each kind of reply.
- `UploadPage`, `Camera`, `Polling`, `ProgressView`, `PlaySection` (frontend): the upload
  page's state and its image merge, the camera component's state, the polling hook, the
  progress panel, and the play buttons of the processed-text section.
- `Strings`, `Common`: the Python and JavaScript string operations the code relies on
  (`strip`, `lower`, `split`, `os.path.splitext`, `str(int)`), and `Option`.

Services, the clock, uuids, the browser and the file system are parameters of the model.
The OCR, LLM and speech replies are inputs. So are the task id, the times, the camera's
media outcome and the canvas's blob.

Two behaviours of the code are modelled as written and stated as lemmas:

- A line containing `日语正文` is caught by the `正文` branch before the `日语` branch is
  reached (`JapaneseBodyHeaderShadowed`).
- `_auto_segment("\n\n", 2)` returns `[""]` (`AutoSegmentBlankGroup`). The parser drops
  such empty segments later, at text_processor.py:264.

The upload page and the server check files differently. The page accepts a file by its
MIME type alone. So a file named `scan` with type `image/png` passes
the page but is refused by the server, whose check needs an extension
(`TypeOnlyNameRefusedByServer`).

## Model

| member | source | states |
|---|---|---|
| Tasks.TaskStatus.Value | task_manager.py:14-22 | every status has a non-empty wire name |
| Tasks.StatusValueInjective | task_manager.py:14-22 | two statuses have the same wire name exactly when they are equal |
| Tasks.NewTask | task_manager.py:48-62 | a new task is PENDING with no result or error; its progress has exactly the keys ocr, text_processing and tts, all "pending"; both timestamps are the creation time |
| Tasks.Updated | task_manager.py:96-110 | an update keeps id, file names and creation time and stamps the update time; a truthy error forces FAILED and is stored; a given result replaces the old one; progress is merged key by key, new entries winning and old ones kept |
| Tasks.UpdateStatusOnly | task_manager.py:96-110 | an update with no progress, result or error changes only the status and the update time |
| Tasks.Live | task_manager.py:112-126 | the tasks kept by the sweep are exactly those not yet past the TTL, unchanged |
| Tasks.LiveIdempotent | task_manager.py:112-126 | sweeping twice at the same time removes nothing more |
| Tasks.LiveShrinksOverTime | task_manager.py:112-126 | a later sweep keeps no task that an earlier sweep removed |
| Tasks.TaskManager.constructor | task_manager.py:28-33 | the table starts empty and valid |
| Tasks.TaskManager.CreateTask | task_manager.py:35-67 | adds exactly one new pending task under the fresh id and returns that id; other tasks are unchanged; the table stays valid |
| Tasks.TaskManager.GetTask | task_manager.py:69-80 | a task is returned exactly when its id is in the table, and it is the stored one |
| Tasks.TaskManager.UpdateTaskStatus | task_manager.py:82-110 | an unknown id changes nothing; a known one is replaced by `Updated` of it and nothing else changes; the table stays valid |
| Tasks.TaskManager.CleanupOldTasks | task_manager.py:112-126 | the table becomes `Live` of the old table at that time |
| App.AllowedFileOf | app_fastapi.py:130-133 | a name ending in `.ext` is allowed exactly when the lower-cased extension is on the whitelist |
| App.SecureFilename | app_fastapi.py:136-143 | the result is as long as the basename, holds only letters, digits, `.`, `_` and `-`, keeps every such character of the basename in place and puts `_` where any other character stood |
| App.SecureFilenameIdempotent | app_fastapi.py:136-143 | a sanitised name has no `/` and sanitising it again changes nothing |
| App.DefaultExtension | app_fastapi.py:526-535 | the default extension is `.jpg` or `.png` |
| App.DefaultExtensionPng | app_fastapi.py:526-535 | a content type gives `.png` exactly when it mentions png and neither jpeg nor jpg |
| App.DefaultExtensionAbsent | app_fastapi.py:528 | with no content type the extension is `.jpg` |
| App.StoredNameSafe | app_fastapi.py:555-567 | the stamped stored name holds only safe characters, so it cannot leave the upload folder |
| App.ApiUpload | app_fastapi.py:522-603 | a name off the whitelist gives the 400 format error and a size over 10 MiB the 400 size error, both leaving the table alone; otherwise one pending task is created under the stamped safe name in `static/uploads` and its id and name are returned |
| App.ApiGetTask | app_fastapi.py:606-633 | an unknown task is a 404; otherwise the wire status is returned, the result only for a COMPLETED task with a result, and the error only for a FAILED task with a non-empty error |
| App.ApiGetTaskOfTable | app_fastapi.py:606-612 | querying the table gives a 404 exactly for ids not in it, and otherwise the stored status |
| App.JoinPath | app_fastapi.py:652 | pathlib's `/`: an absolute right operand replaces the base, an empty one leaves the base, any other is appended after `/`, and nothing is normalised |
| App.ServeFrontend | app_fastapi.py:644-661 | `api/`, `images/`, `static/` and `_next/` paths are 404; an existing file is served at pathlib's join of `frontend/out` and the request path; any other path gets index.html when it exists, else 404 |
| App.ServeFrontendEscapes | app_fastapi.py:652-654 | as written, the request path `/etc/passwd` is served as the file `/etc/passwd`, outside `frontend/out` |
| App.ServeFrontendClimbs | app_fastapi.py:652-654 | as written, a request path starting with `../` is served with its `..` segment kept, from above `frontend/out` |
| App.ServeFrontendConfined | app_fastapi.py:644-661 | corrected route: a served file is always `frontend/out` itself or below it along a relative path with no `..` segment; reserved paths are 404; any other path gets index.html when it exists, else 404 |
| App.ServeFrontendConfinedAgrees | app_fastapi.py:644-661 | on every relative path without `..` the corrected route answers as the original |
| Ocr.ParagraphBlocks | picture_to_text.py:208-219 | a paragraph adds no block exactly when its text is empty, and otherwise one block with its text and its confidence or 0 |
| Ocr.ParagraphsBlocksFilter | picture_to_text.py:208-219 | the blocks of a run of paragraphs are the textful paragraphs, each as a block with its confidence or 0, in order |
| Ocr.BlocksBlocksFilter | picture_to_text.py:206-219 | the blocks of a run of layout blocks are the textful paragraphs of all of them, in order; a layout block without paragraphs adds none |
| Ocr.PagesBlocksFilter | picture_to_text.py:202-219 | the text blocks of the pages are all their paragraphs, in page, block, paragraph order, with the empty ones dropped; pages without blocks add none |
| Ocr.PagesBlocksText | picture_to_text.py:202-219 | the blocks' texts concatenated are the text of all paragraphs of all pages, in order |
| Ocr.PagesBlocksNonEmpty | picture_to_text.py:215-219 | every paragraph block has non-empty text |
| Ocr.ParagraphTextLoop | picture_to_text.py:209-214 | the symbol loop builds the paragraph's text |
| Ocr.ParagraphBlocksLoop | picture_to_text.py:208-219 | the paragraph loop builds `ParagraphsBlocks` |
| Ocr.BlockBlocksLoop | picture_to_text.py:206-219 | the block loop builds `BlocksBlocks` |
| Ocr.DocumentBlocks | picture_to_text.py:202-219 | the page loop builds `PagesBlocks` |
| Ocr.AnnotationBlocks | picture_to_text.py:234-239 | one block per annotation, with its description (empty when missing) and its bounding box |
| Ocr.AnnotationBlocksLoop | picture_to_text.py:234-239 | the loop over all annotations after the first builds `AnnotationBlocks` of them |
| Ocr.ExtractText | picture_to_text.py:160-250 | no responses gives "未检测到文本"; an error in the first response gives its message, or "未知错误" without one; every other outcome is stated by Ocr.DocumentExtraction, Ocr.EmptyPagesRaise, Ocr.NoPagesExtraction, Ocr.TextExtraction and Ocr.NoTextData |
| Ocr.OnlyFirstResponse | picture_to_text.py:184 | responses after the first never change the outcome |
| Ocr.DocumentExtraction | picture_to_text.py:195-225 | a document annotation with pages gives its text (empty when missing), one block per textful paragraph of all pages in order, whose texts spell out all paragraphs, and the first page's languages (none when missing) |
| Ocr.EmptyPagesRaise | picture_to_text.py:203-224 | an empty page list raises the IndexError of the language lookup |
| Ocr.NoPagesExtraction | picture_to_text.py:199-224 | an annotation without pages gives its text, no blocks and no languages |
| Ocr.TextExtraction | picture_to_text.py:227-244 | text annotations give the first one's description as full text and one block per later annotation carrying its description |
| Ocr.NoTextData | picture_to_text.py:195-250 | an unknown detection type, document mode without a full-text annotation, and text mode with no or an empty annotation list give "未找到文本数据" |
| Ocr.HeicSuffix | picture_to_text.py:92-100 | a path is treated as HEIC only when its lower-cased name ends in `.heic` or `.heif` |
| Ocr.HeicOfName | picture_to_text.py:92-100 | a plain name with a `.heic`/`.heif` extension in any letter case is treated as HEIC |
| Segmenter.FindTerminator | text_processor.py:286 | the first `。`, `！`, `？` or newline, or -1 when there is none |
| Segmenter.RegexSplit | text_processor.py:286 | `re.split` with a capture group gives at least one piece |
| Segmenter.RegexSplitShape | text_processor.py:286 | the pieces alternate between terminator-free text and single terminators, and end in text |
| Segmenter.RegexSplitJoin | text_processor.py:286 | the pieces concatenated give back the text |
| Segmenter.Sentences | text_processor.py:293-297 | pairing text with its terminator gives one sentence per two pieces, rounding up |
| Segmenter.SentencesAt | text_processor.py:293-297 | sentence j is built from pieces 2j and 2j+1 |
| Segmenter.GroupSize | text_processor.py:308 | a group size below 1 acts like 1, because the count test `>=` already passes after one sentence |
| Segmenter.AutoSegmentEmptyIff | text_processor.py:280-281 | the result is empty exactly for the empty text |
| Segmenter.NonEmpty | text_processor.py:299 | only non-empty sentences are counted |
| Segmenter.Chunks | text_processor.py:305-311 | every full group has exactly the group size |
| Segmenter.Rest | text_processor.py:313-315 | the leftover group is smaller than the group size |
| Segmenter.ChunksPartition | text_processor.py:293-315 | full groups followed by the leftover are exactly the counted sentences, in order |
| Segmenter.GroupTexts | text_processor.py:309 | each segment is its group's sentences concatenated and stripped |
| Segmenter.SegFoldGroups | text_processor.py:293-311 | the loop state after any prefix is: the full groups so far, and the sentences of the open group |
| Segmenter.AutoSegmentGroups | text_processor.py:269-321 | the result is the full groups' texts plus the non-blank leftover, or the whole text stripped when both are empty |
| Segmenter.AutoSegmentBlankGroup | text_processor.py:314-319 | `_auto_segment("\n\n", 2)` is `[""]` |
| Segmenter.SplitWholeSentences | text_processor.py:286 | a text made of whole sentences splits into those sentences' bodies and terminators |
| Segmenter.WholeSentenceSegments | text_processor.py:269-321 | for whole sentences with no surrounding spaces, the segments are the sentences grouped n at a time, each stripped, with the last group possibly short |
| Segmenter.ThreeSentencesByOne | test_segmentation_simple.py:77-78 | three whole sentences by 1 give the three sentences |
| Segmenter.ThreeSentencesByTwo | test_segmentation_simple.py:77-78 | three whole sentences by 2 give the first two together and the third |
| Segmenter.ThreeSentencesByThree | test_segmentation_simple.py:77-78 | three whole sentences by 3 give one segment |
| Segmenter.FourSentencesByTwo | test_segmentation_simple.py:92 | four whole sentences by 2 give two pairs |
| Segmenter.SampleText1Segments | test_segmentation_simple.py:61-78 | the first sample text gives 3, 2 and 1 segments for 1, 2 and 3 sentences per segment |
| Segmenter.SampleText2Segments | test_segmentation_simple.py:88-92 | the second sample text by 2 gives the question with the reading prompt, then the two body sentences |
| TextProcessing.AutoSegmentLoop | text_processor.py:269-321 | the loop computes `AutoSegment` |
| TextProcessing.GroupSentences | text_processor.py:293-311 | the grouping loop over the split pieces ends in the fold's segments and open segment |
| TextProcessing.HeaderOf | text_processor.py:174-204 | a line with none of the header words is content |
| TextProcessing.InlineValue | text_processor.py:176-203 | a value follows a header exactly when the line has `：` or `:`; it is the stripped text after the first full-width colon, or else after the first ASCII colon |
| TextProcessing.AppendLine | text_processor.py:207-234 | appending gives the empty text only when both parts are empty |
| TextProcessing.CleanSegments | text_processor.py:264 | kept segments are non-empty and stripped |
| TextProcessing.CleanSegmentsLoop | text_processor.py:264 | the loop computes `CleanSegments` |
| TextProcessing.ParseResponse | text_processor.py:150-267 | every segment of a parsed reply is non-empty and stripped; what each section and fallback yields is stated by TextProcessing.ReplyRoundTrip, TextProcessing.HeaderlessReply and the Finish lemmas |
| TextProcessing.ParseLineStep | text_processor.py:171-234 | one pass of the line loop computes `ParseLine` |
| TextProcessing.ParseLines | text_processor.py:167-234 | the line loop computes `ParseFrom` over the lines |
| TextProcessing.FinishParse | text_processor.py:236-267 | the fallbacks and the final stripping compute `Finish` |
| TextProcessing.ParseResponseLoop | text_processor.py:150-267 | the parser as a loop computes `ParseResponse` |
| TextProcessing.JapaneseBodyHeaderShadowed | text_processor.py:181-197 | a `日语正文` line never opens the Japanese section; it opens the segments or main section |
| TextProcessing.NotAHeader | text_processor.py:174-204 | a line without the first characters of the header words is content |
| TextProcessing.ParseFromAppend | text_processor.py:170-234 | parsing two runs of lines is parsing the first, then the second |
| TextProcessing.BlankLine | text_processor.py:171-234 | a blank line changes nothing |
| TextProcessing.ContentStep | text_processor.py:206-234 | a plain line goes to the current section |
| TextProcessing.InstructionHeader | text_processor.py:174-179 | `指导语：` opens the instruction section with an empty instruction |
| TextProcessing.MainHeader | text_processor.py:181-186 | `正文：` opens the main section with an empty body |
| TextProcessing.SegmentsHeader | text_processor.py:188-190 | `分段：` opens the segments section, keeping the segments so far |
| TextProcessing.ChineseHeader | text_processor.py:199-204 | `中文翻译：` opens the translation section with an empty translation |
| TextProcessing.InstructionLines | text_processor.py:207-211 | plain lines in the instruction section are joined by spaces |
| TextProcessing.MainLines | text_processor.py:213-217 | plain lines in the main section are joined by newlines |
| TextProcessing.ChineseLines | text_processor.py:230-234 | plain lines in the translation section are joined by newlines |
| TextProcessing.SegmentLines | text_processor.py:219-222 | plain lines in the segments section become the segments |
| TextProcessing.CleanSegmentsKeeps | text_processor.py:264 | segments that are already plain are kept as they are |
| TextProcessing.ReplyRoundTrip | text_processor.py:150-267 | a reply laid out as the prompt asks, with plain lines, parses back into its instruction, body, segments and translation, the body standing in for the Japanese text |
| TextProcessing.FinishSections | text_processor.py:236-267 | with a body and segments no fallback applies: every field is its stripped section and the Japanese text falls back to the body |
| TextProcessing.FinishBodyWithoutSegments | text_processor.py:237-238 | a body without segments is segmented automatically, two sentences at a time, and the empty segments dropped |
| TextProcessing.FinishJapaneseBody | text_processor.py:241-244 | without a body the Japanese text becomes the body, and is segmented automatically when there are no segments |
| TextProcessing.FinishJapaneseDefault | text_processor.py:265 | without a Japanese section the Japanese text is the stripped body |
| TextProcessing.FinishNoSections | text_processor.py:247-259 | with no body, Japanese text or translation, the body is the first `\n\n` paragraph and the translation the second when there are two or more, else the body is the whole stripped reply; the body is segmented automatically and stands in for the Japanese text |
| TextProcessing.HeaderlessLines | text_processor.py:167-234 | lines without any header leave the parser in its initial state |
| TextProcessing.HeaderlessReply | text_processor.py:150-267 | a reply without any header line parses to the paragraph fallback, with an empty instruction |
| TextProcessing.Failed | text_processor.py:43-51 | a failure carries its message, no segments and no raw response |
| TextProcessing.ProcessOcrText | text_processor.py:33-148 | blank input fails with "输入文本为空", a failed request with "API请求失败: " and the reason, any other exception with "处理失败: " and the reason, and a reply without choices with "API返回格式异常"; there is no error exactly when the text is not blank and the service replied with a choice; then every field is the parse of the first choice and the raw response is kept |
| Speech.NormalizeFormat | text_to_speech.py:67-76 | the format is always a known one: the lower-cased request when that is known, mp3 otherwise |
| Speech.NormalizeFormatIgnoresCase | text_to_speech.py:67-76 | the letter case of the requested format does not matter |
| Speech.EncodingInjective | text_to_speech.py:67-76 | different known formats map to different encodings |
| Speech.BuildRequest | text_to_speech.py:79-97 | the request carries the text, ja-JP, the voice and the format's encoding, and the model only when one is given |
| Speech.SynthesizeJapanese | text_to_speech.py:34-163 | blank text fails with "输入文本为空"; audio is returned exactly for a 200 reply without an error and with non-empty audio content |
| Speech.BlankTextNoRequest | text_to_speech.py:60-64 | for blank text the reply does not matter, because no request is made |
| Speech.ErrorStatusNamed | text_to_speech.py:108-124 | a non-200 reply fails with a message naming the status code and reports the request sent |
| Speech.SynthesizedFields | text_to_speech.py:146-152 | a success reports the normalised format, the voice, the audio content, and "default" exactly when no model was named |
| Pipeline.ProgressMap | app_fastapi.py:164-168 | a stage event updates exactly its own stage's progress |
| Pipeline.SegmentKeyInjective | app_fastapi.py:232-251 | different segment indices give different audio keys |
| Pipeline.SegmentUrlsSpec | app_fastapi.py:232-251 | segment i has an audio URL exactly when it is not blank and synthesis succeeded, and the URL is named after the task and key |
| Pipeline.SegmentUrlsOnly | app_fastapi.py:232-251 | every key the segment loop adds is a segment key |
| Pipeline.SegmentUrlsLoop | app_fastapi.py:232-251 | the segment loop computes `SegmentUrls` |
| Pipeline.AudioUrlsKeys | app_fastapi.py:222-295 | main, instruction and each segment have audio exactly when their text is not blank and synthesis succeeded; the stand-in text gets none |
| Pipeline.SpeechUrls | app_fastapi.py:222-295 | the TTS step computes `AudioUrls` |
| Pipeline.UpdatesEnd | app_fastapi.py:146-321 | the job starts with PROCESSING and makes exactly one final update, its last: COMPLETED with a result or FAILED with an error |
| Pipeline.UpdatesFollowStageOrder | app_fastapi.py:153-295 | the stage events appear in the order ocr, text_processing, tts, each processing before completed, some possibly skipped |
| Pipeline.OcrFailureStops | app_fastapi.py:156-178 | without OCR, or when its request or extraction fails, the job fails with no stage completed |
| Pipeline.CompletedResult | app_fastapi.py:298-313 | a completed job stored the extraction's text, blocks and language; the processed text is absent exactly for empty text, is the stand-in without a processor, and is otherwise the error-free processor result; audio URLs are `AudioUrls` when TTS ran and empty otherwise |
| Pipeline.CheckedLast | app_fastapi.py:208-313 | after the text check, a processing error fails the job; otherwise the job ends COMPLETED with that processed text |
| Pipeline.JobLeavesTaskFinal | app_fastapi.py:146-321 | after the job only its own task has changed, and it is COMPLETED with the last update's result or FAILED with its error |
| Pipeline.ApplyAllFrame | app_fastapi.py:146-321 | the job's updates keep the set of tasks and every other task |
| Pipeline.ProcessImageTask | app_fastapi.py:146-321 | the table becomes the old table with the updates of `Updates` applied in order; it stays valid |
| Pipeline.OcrStage | app_fastapi.py:155-184 | the OCR step applies `OcrUpdates` |
| Pipeline.ExtractionStage | app_fastapi.py:170-184 | the steps after extraction apply `ExtractionUpdates` |
| Pipeline.TextStage | app_fastapi.py:186-220 | the text step applies `TextUpdates` |
| Pipeline.CheckStage | app_fastapi.py:208-220 | the check of the processed text applies `CheckedUpdates` |
| Pipeline.SpeechStage | app_fastapi.py:222-313 | the TTS step and the final update apply `FinalUpdates` |
| UploadPage.CheckFile | frontend/app/upload/page.tsx:28-47 | a file is accepted exactly when its type or name suffix is allowed and it is at most 10 MiB; the format error comes first |
| UploadPage.NameAcceptedByServer | frontend/app/upload/page.tsx:28-41 | a name the page accepts by suffix is also allowed by the server |
| UploadPage.TypeOnlyNameRefusedByServer | frontend/app/upload/page.tsx:28-41 | a name without a dot but with an image type passes the page and is refused by the server |
| UploadPage.MaxWidth | frontend/app/upload/page.tsx:215-220 | the merged width is the widest image, 0 for none |
| UploadPage.RowsTile | frontend/app/upload/page.tsx:215-230 | images are drawn top to bottom from 0, each starting where the previous ends, none overlapping and all inside the canvas |
| UploadPage.Layout | frontend/app/upload/page.tsx:215-230 | the two loops compute the widest width, the total height and the row offsets |
| UploadPage.MergedFile | frontend/app/upload/page.tsx:238-242 | the merged file is a JPEG the server's whitelist accepts |
| UploadPage.MergeImages | frontend/app/upload/page.tsx:185-258 | no files fails with "没有文件需要合并"; a merge succeeds only when all images loaded, and its canvas is their total height |
| UploadPage.FilesOf | frontend/app/upload/page.tsx:105 | the kept items are exactly the list's files |
| UploadPage.FilesOfFiles | frontend/app/upload/page.tsx:105 | a list of files is kept whole |
| UploadPage.Select | frontend/app/upload/page.tsx:99-131 | no argument uses the chosen file or fails with "请先选择文件"; a file is used alone; a list keeps exactly its files in order, or fails with "文件格式错误: 没有有效的文件" when it has none; anything else is an argument error |
| UploadPage.Outgoing | frontend/app/upload/page.tsx:148-181 | one file is sent as it is; several are sent only when merging succeeds, as a JPEG the server accepts |
| UploadPage.PageState.constructor | frontend/app/upload/page.tsx:14-20 | the page starts with nothing selected, no task, no error |
| UploadPage.PageState.HandleFileSelect | frontend/app/upload/page.tsx:26-58 | a rejected file shows its message and keeps the old selection; an accepted one is selected with its preview and clears the error |
| UploadPage.PageState.HandleUpload | frontend/app/upload/page.tsx:85-182 | an invalid argument shows its message; otherwise `Outgoing` is sent, a failed merge shows "上传失败", a reply sets the task id or shows its error, and uploading ends |
| UploadPage.PageState.HandleCameraCapture | frontend/app/upload/page.tsx:261-283 | the camera closes; no shots shows an error and keeps file and preview; one shot is selected with its preview; several are merged and uploaded, a failed merge or upload showing its `上传失败` message and keeping the task id, a success setting the task id |
| UploadPage.PageState.HandleReset | frontend/app/upload/page.tsx:285-297 | file, preview, task, error and uploading are cleared |
| Camera.StartErrorMessage | frontend/components/CameraCapture.tsx:72-85 | each pair of browser error names maps to its message, and every other name to the generic one |
| Camera.RemoveById | frontend/components/CameraCapture.tsx:236-238 | no shot with the id remains |
| Camera.RemoveByIdKeeps | frontend/components/CameraCapture.tsx:236-238 | the remaining shots are exactly the others, each as often as before, in order |
| Camera.RemoveByIdIdempotent | frontend/components/CameraCapture.tsx:236-238 | removing an absent id changes nothing, and removing twice is removing once |
| Camera.Files | frontend/components/CameraCapture.tsx:247 | one file per shot, in order |
| Camera.CameraSession.constructor | frontend/components/CameraCapture.tsx:25-33 | the camera starts stopped with no shots and no error |
| Camera.CameraSession.StartCamera | frontend/components/CameraCapture.tsx:36-87 | a running camera is left alone; otherwise a stream is requested, a granted one with a video element starts streaming, and a refusal shows its mapped message |
| Camera.CameraSession.StopCamera | frontend/components/CameraCapture.tsx:90-100 | every track of the stream is stopped and the camera is idle |
| Camera.CameraSession.CapturePhoto | frontend/components/CameraCapture.tsx:132-233 | on iOS without a stream the camera is started first, with `startCamera`'s outcome, and otherwise the stream state is kept; a shot is added exactly when a stream is available and every check and the conversion succeed, and nothing else is added; each failed check shows its own message (not started, no context, zero size, the thrown error, no blob) and keeps the tip; a success keeps or clears the error and shows the reflection tip while below the page limit |
| Camera.CameraSession.RemoveImage | frontend/components/CameraCapture.tsx:236-238 | the shots become `RemoveById` of them and every other field is kept |
| Camera.CameraSession.HandleFinish | frontend/components/CameraCapture.tsx:241-250 | with no shots nothing is handed over and the camera's state is kept; otherwise the shots' files are handed over in order and the camera stops: every held track is stopped, and no stream or flag remains; the error, the tip and the request count are kept |
| Polling.TaskPoller.constructor | frontend/lib/hooks/useTaskPolling.ts:8-12 | no task, not loading, no timer |
| Polling.TaskPoller.Cleanup | frontend/lib/hooks/useTaskPolling.ts:52-56 | the running interval is cleared but the ref keeps its handle |
| Polling.TaskPoller.Effect | frontend/lib/hooks/useTaskPolling.ts:14-57 | no id only runs the cleanup; an id queries once at once and leaves exactly one interval, polling that id |
| Polling.TaskPoller.Unmount | frontend/lib/hooks/useTaskPolling.ts:52-56 | no interval keeps running |
| Polling.TaskPoller.Tick | frontend/lib/hooks/useTaskPolling.ts:49 | a running interval queries its own task again; a cleared one does nothing |
| Polling.TaskPoller.Response | frontend/lib/hooks/useTaskPolling.ts:24-34 | the answer is shown and loading ends; a completed or failed status stops polling |
| Polling.TaskPoller.QueryError | frontend/lib/hooks/useTaskPolling.ts:35-42 | the error's message or "查询失败" is shown and polling stops |
| Polling.LateAnswerForPreviousTask | frontend/lib/hooks/useTaskPolling.ts:22-34 | a late answer for the previous task is shown for the new one and stops its polling |
| ProgressView.CountDone | frontend/components/UploadProgress.tsx:14-18 | the count is 0 exactly when no stage is done, and all exactly when every stage is done |
| ProgressView.CompletedSteps | frontend/components/UploadProgress.tsx:13-18 | between 0 and 3, reading a missing progress as empty |
| ProgressView.CountDoneMonotone | frontend/components/UploadProgress.tsx:14-18 | more finished stages never give a smaller count |
| ProgressView.RoundedPercent | frontend/components/UploadProgress.tsx:20-36 | the shown percentage is 0, 33, 67 or 100 |
| ProgressView.StepStatus | frontend/components/UploadProgress.tsx:22-26 | completed and processing pass through; anything else shows as pending |
| ProgressView.StageStatus | frontend/components/UploadProgress.tsx:40-48 | a stage shows completed exactly when it is counted as done, and pending when missing |
| ProgressView.Render | frontend/components/UploadProgress.tsx:8-53 | no task draws nothing; a task draws three stages, and 100% exactly when all three show completed |
| PlaySection.OrElse | frontend/components/ProcessedTextSection.tsx:32 | a missing or empty value falls back |
| PlaySection.MainText | frontend/components/ProcessedTextSection.tsx:32 | the body, else the Japanese text, else empty |
| PlaySection.Segments | frontend/components/ProcessedTextSection.tsx:33 | the segments, or none when absent |
| PlaySection.PlayCall | frontend/components/ProcessedTextSection.tsx:35-47 | a text is played only when non-empty, with the type it was asked for: the instruction, the main text, or an in-range segment |
| PlaySection.ParsedSegmentsAllPlay | frontend/components/ProcessedTextSection.tsx:42-46 | for a successfully processed text every segment button plays its segment |
| Strings.StripSpec | text_processor.py:171 | `strip` removes exactly the surrounding whitespace, and is empty exactly for blank text |
| Strings.StripIdempotent | text_processor.py:262-266 | stripping twice is stripping once |
| Strings.LowerIdempotent | app_fastapi.py:133 | lower-casing twice is lower-casing once |
| Strings.Find | text_processor.py:178 | the index of the first occurrence, or -1 exactly when there is none |
| Strings.SplitJoin | text_processor.py:167 | joining the pieces of `split('\n')` gives back the text |
| Strings.JoinSplit | text_processor.py:167 | splitting lines joined by newlines gives back the lines |
| Strings.SplitStrJoin | text_processor.py:249 | joining the pieces of `split('\n\n')` gives back the text |
| Strings.NatToStringValue | app_fastapi.py:557-567 | the decimal digits of a timestamp read back as that number |
| Strings.Basename | app_fastapi.py:140 | the basename is the path after its last `/`: it has no `/`, ends the path, and is preceded by a `/` whenever the path has one |
| Strings.SplitExt | app_fastapi.py:558 | name and extension concatenate to the path, and the extension is empty or one dot followed by no dot or `/` |
| Strings.SplitExtBasename | app_fastapi.py:558 | the extension is non-empty exactly when the basename has a dot with something other than dots before its last one, and it is then the basename from that dot on |

## Findings

| source | as written | input that shows it | evidently intended | confidence | as-written member | corrected member |
|---|---|---|---|---|---|---|
| app_fastapi.py:652-654 | the catch-all route joins the request path onto `frontend/out` with pathlib, which keeps `..` segments and lets an absolute right operand replace the base | `GET //etc/passwd` gives `full_path == "/etc/passwd"` and serves that file; `GET /../x` (sent unnormalised) serves `frontend/out/../x` | only files inside the build directory are served | not executed; medium (the server's handling of `//` and raw `..` decides reachability) | App.ServeFrontendEscapes, App.ServeFrontendClimbs | App.ServeFrontendConfined |

## Left out

- Network calls, base64 encoding, the PIL HEIC-to-JPEG conversion and the clock are not modelled. The services' replies, the times and the task id are inputs.
- File writes in `api_upload` and `process_image_task` are left out, and so are the audio files. The 500 response for a failed save is therefore absent. The daemon thread is modelled as running the job to its end.
- The lock in the task manager and any concurrency between jobs and queries are not modelled: each call is atomic.
- The speaking rate, pitch and volume of text_to_speech.py are floats that pass through unchanged, so they are not modelled.
- App.ApiUpload: the 400 format message lists `ALLOWED_EXTENSIONS` in Python's set iteration order. The model returns the error without its text.
- Speech.SynthesizeJapanese: the service's reply is an input and is not related to the text that was sent.
- Pipeline.UpdatesFollowStageOrder: states an order, not that each stage that ran is reported. The content of each stage's events is stated by Pipeline.CompletedResult and Pipeline.OcrFailureStops.
- The mock LLM reply of tests/test_segmentation.py is covered only through the general `TextProcessing.ReplyRoundTrip`.
- `auto_segment` of test_segmentation_simple.py is the same code as `_auto_segment` and is modelled once, by `Segmenter.AutoSegment`.
- `get_all_tasks`, `/`, `/api/ocr`, `/images/...`, `/api/tts` and `/api/tts/audio` are outside this model, as are the log messages of `cleanup_old_tasks`.
- The React lifecycle is not modelled. This covers the mount effect that starts the camera on non-iOS browsers, resetting the file input, and re-rendering.
- The iOS wait for `loadedmetadata` is not modelled. Its outcome is an input of `CapturePhoto`.
- The alert in `handleFinish` is not modelled.
- The alignment frame of the camera is float geometry and is not modelled.
- The FileReader preview is modelled as finishing at once.
- The `instanceof File` checks of page.tsx:125-129 and 141-146 cannot fail after the selection step, so they are not modelled.
- The page does not check the size of a merged file before sending it, and neither does the model.
- Images are drawn in the order their readers finish. The model takes that order as given.
- UploadProgress.tsx draws the bar at the unrounded percentage. ProgressView.RoundedPercent models only the rounded label.
- Pipeline.ProcessImageTask: speech synthesis (the `tts` field of `Services`) is a function of the text, so two requests for the same text get the same reply.
- Tasks.NewTask: the two `datetime.now()` calls of task_manager.py:58-59 are one time input, so the creation and update times of a new task are equal; in the source they can differ by the time between the calls.
- Pipeline.ProcessImageTask: the OCR outcome (`OcrCall`) does not include the "处理失败: <message>" reply of a failing `_encode_image`, nor the KeyError of a symbol without `text`.
- UploadPage.MergeImages: whether all images loaded is an input and is not tied to the number of files.
- App.JoinPath: pathlib's collapsing of repeated and trailing slashes and of `.` segments is not modelled.
- The task poller shows a stale answer for an earlier task, as the hook does. Polling.LateAnswerForPreviousTask states this.
