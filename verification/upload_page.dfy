/**
 * The upload page (frontend/app/upload/page.tsx): choosing a file, normalising what is
 * to be uploaded, stacking several pages into one image, handing camera shots over,
 * and resetting. The browser's `FileReader`, image decoding, canvas and the HTTP upload
 * are inputs: their outcomes are parameters.
 */
module UploadPage {
  import opened Common
  import opened Strings
  import App

  const MaxFileSize: nat := 10 * 1024 * 1024
  const AllowedTypes: seq<string> := ["image/png", "image/jpeg", "image/jpg", "image/heic", "image/heif"]
  /** The suffixes of `/\.(png|jpg|jpeg|heic|heif)$/i`, lower-cased. */
  const AllowedSuffixes: seq<string> := [".png", ".jpg", ".jpeg", ".heic", ".heif"]

  const UnsupportedMessage := "不支持的文件格式。请选择 PNG, JPG 或 HEIC 格式的图片。"
  const TooLargeMessage := "文件大小不能超过 10MB。"
  const NoFileMessage := "请先选择文件"
  const NoValidFileMessage := "文件格式错误: 没有有效的文件"
  const BadArgumentMessage := "无效的文件格式: 参数必须是 File 或 File[]"
  const EmptyMergeMessage := "没有文件需要合并"
  const NoCanvasMessage := "无法创建canvas上下文"
  const MergeFailedMessage := "图片合并失败"
  const ImageLoadMessage := "图片加载失败"
  const FileReadMessage := "文件读取失败"
  const NoShotsMessage := "没有拍摄到图片"

  /**
   * The type test of `handleFileSelect`: an accepted MIME type, or a name ending in one of
   * the suffixes whatever its case. A case-insensitive JavaScript pattern folds only ASCII
   * letters onto these suffixes, which is what `Lower` does.
   */
  predicate AllowedType(f: FileInfo) {
    f.mimeType in AllowedTypes || exists k :: 0 <= k < |AllowedSuffixes| && EndsWith(Lower(f.name), AllowedSuffixes[k])
  }

  datatype Verdict = Accepted | Rejected(message: string)

  /** The checks of `handleFileSelect`, type before size; exactly 10 MiB is still accepted. */
  function CheckFile(f: FileInfo): (v: Verdict)
    ensures v == Accepted <==> AllowedType(f) && f.size <= MaxFileSize
    ensures !AllowedType(f) ==> v == Rejected(UnsupportedMessage)
    ensures AllowedType(f) && f.size > MaxFileSize ==> v == Rejected(TooLargeMessage)
  {
    if !AllowedType(f) then Rejected(UnsupportedMessage)
    else if f.size > MaxFileSize then Rejected(TooLargeMessage)
    else Accepted
  }

  /**
   * A name the page accepts by its suffix is one the server accepts too: its last dot
   * starts the suffix, and the extension after it is on the server's list.
   */
  lemma NameAcceptedByServer(name: string, k: nat)
    requires k < |AllowedSuffixes| && EndsWith(Lower(name), AllowedSuffixes[k])
    ensures App.AllowedFile(name)
  {
    var suffix := AllowedSuffixes[k];
    var n := |name|;
    var d := n - |suffix|;
    assert Lower(name)[d..] == suffix;
    assert Lower(name)[d] == '.';
    assert name[d] == '.';
    forall j | d < j < n
      ensures name[j] != '.'
    {
      assert Lower(name)[j] == suffix[j - d];
    }
    var r := RFind(name, '.');
    assert name[r] == '.';
    assert r == d;
    assert Lower(name[r + 1..]) == suffix[1..];
  }

  /**
   * The page does not demand an extension: a file whose MIME type alone passes the page's
   * test, named without a dot, is refused by the server.
   */
  lemma TypeOnlyNameRefusedByServer(size: nat)
    ensures CheckFile(FileInfo("scan", "image/png", size)) == (if size <= MaxFileSize then Accepted else Rejected(TooLargeMessage))
    ensures !App.AllowedFile("scan")
  {
    assert "image/png" == AllowedTypes[0];
  }

  /** The width and height of a decoded image. */
  datatype ImageSize = ImageSize(width: nat, height: nat)

  /** `Math.max` over the widths, starting from 0. */
  function MaxWidth(images: seq<ImageSize>): (w: nat)
    ensures forall i :: 0 <= i < |images| ==> images[i].width <= w
    ensures images == [] ==> w == 0
    ensures images != [] ==> exists i :: 0 <= i < |images| && images[i].width == w
  {
    if images == [] then 0
    else
      var w := MaxWidth(images[..|images| - 1]);
      var last := images[|images| - 1].width;
      if last > w then last else w
  }

  /** The sum of the heights. */
  function SumHeights(images: seq<ImageSize>): nat {
    if images == [] then 0 else SumHeights(images[..|images| - 1]) + images[|images| - 1].height
  }

  /** Where each image is drawn: below all the images before it. */
  function Offsets(images: seq<ImageSize>): (rows: seq<nat>)
    ensures |rows| == |images|
  {
    seq(|images|, k requires 0 <= k < |images| => SumHeights(images[..k]))
  }

  /** A longer prefix is at least as tall, and exactly taller by the heights in between. */
  lemma {:induction false} SumHeightsGrows(images: seq<ImageSize>, j: nat, k: nat)
    requires j < k <= |images|
    ensures SumHeights(images[..j]) + images[j].height <= SumHeights(images[..k])
    ensures k == j + 1 ==> SumHeights(images[..j]) + images[j].height == SumHeights(images[..k])
    decreases k
  {
    assert images[..k][..k - 1] == images[..k - 1];
    if k > j + 1 {
      SumHeightsGrows(images, j, k - 1);
    }
  }

  /**
   * The drawn rows tile the canvas: the first starts at the top, each next one starts
   * where the previous ends, the last ends at the canvas height, no two overlap, and every
   * image fits the canvas width.
   */
  lemma RowsTile(images: seq<ImageSize>)
    ensures images != [] ==> Offsets(images)[0] == 0
    ensures forall k :: 0 <= k < |images| - 1 ==> Offsets(images)[k] + images[k].height == Offsets(images)[k + 1]
    ensures images != [] ==> Offsets(images)[|images| - 1] + images[|images| - 1].height == SumHeights(images)
    ensures forall j, k :: 0 <= j < k < |images| ==> Offsets(images)[j] + images[j].height <= Offsets(images)[k]
    ensures forall k :: 0 <= k < |images| ==> Offsets(images)[k] + images[k].height <= SumHeights(images)
    ensures forall k :: 0 <= k < |images| ==> images[k].width <= MaxWidth(images)
  {
    var rows := Offsets(images);
    var n := |images|;
    if n > 0 {
      assert images[..0] == [];
      assert images[..n] == images;
    }
    forall j, k | 0 <= j < k <= n
      ensures rows[j] + images[j].height <= SumHeights(images[..k])
      ensures k == j + 1 ==> rows[j] + images[j].height == SumHeights(images[..k])
    {
      SumHeightsGrows(images, j, k);
    }
  }

  /** The canvas of a merge: its size and where each image is drawn. */
  datatype Canvas = Canvas(width: nat, height: nat, rows: seq<nat>)

  /**
   * The two `forEach` passes of `mergeImages`: the first accumulates the total height and
   * the largest width, the second hands each image the running `currentY`.
   */
  method Layout(images: seq<ImageSize>) returns (canvas: Canvas)
    ensures canvas == Canvas(MaxWidth(images), SumHeights(images), Offsets(images))
  {
    var totalHeight := 0;
    var maxWidth := 0;
    for i := 0 to |images|
      invariant totalHeight == SumHeights(images[..i])
      invariant maxWidth == MaxWidth(images[..i])
    {
      assert images[..i + 1][..i] == images[..i];
      totalHeight := totalHeight + images[i].height;
      maxWidth := if images[i].width > maxWidth then images[i].width else maxWidth;
    }
    assert images[..|images|] == images;
    var currentY := 0;
    var rows := [];
    for i := 0 to |images|
      invariant |rows| == i
      invariant currentY == SumHeights(images[..i])
      invariant forall k :: 0 <= k < i ==> rows[k] == SumHeights(images[..k])
    {
      assert images[..i + 1][..i] == images[..i];
      rows := rows + [currentY];
      currentY := currentY + images[i].height;
    }
    canvas := Canvas(maxWidth, totalHeight, rows);
  }

  /**
   * How loading the pages went. `AllLoaded` lists the decoded images in the order their
   * readers finished, which is the order they are stacked in; the page does not fix it.
   */
  datatype Loading = AllLoaded(images: seq<ImageSize>) | ReadFailed | LoadFailed

  /** The browser's part of one merge: loading, the drawing context, the blob and the clock. */
  datatype MergeEnv = MergeEnv(loading: Loading, contextOk: bool, blob: Option<nat>, now: nat)

  datatype MergeOutcome = Merged(file: FileInfo, canvas: Canvas) | MergeFailed(message: string)

  /** The merged JPEG: `merged_<now>.jpg`. */
  function MergedFile(now: nat, size: nat): (f: FileInfo)
    ensures f.mimeType == "image/jpeg" && f.size == size
    ensures App.AllowedFile(f.name)
  {
    var stem := "merged_" + NatToString(now);
    App.AllowedFileOf(stem, "jpg");
    assert Lower("jpg") == "jpg";
    assert stem + "." + "jpg" == "merged_" + NatToString(now) + ".jpg";
    FileInfo("merged_" + NatToString(now) + ".jpg", "image/jpeg", size)
  }

  /** What `mergeImages` settles to. */
  function MergeResult(files: seq<FileInfo>, env: MergeEnv): MergeOutcome {
    if files == [] then MergeFailed(EmptyMergeMessage)
    else match env.loading
      case ReadFailed => MergeFailed(FileReadMessage)
      case LoadFailed => MergeFailed(ImageLoadMessage)
      case AllLoaded(images) =>
        if !env.contextOk then MergeFailed(NoCanvasMessage)
        else if env.blob.None? then MergeFailed(MergeFailedMessage)
        else Merged(MergedFile(env.now, env.blob.value), Canvas(MaxWidth(images), SumHeights(images), Offsets(images)))
  }

  /** `mergeImages`: an empty list is refused; otherwise the pages are stacked top to bottom. */
  method MergeImages(files: seq<FileInfo>, env: MergeEnv) returns (outcome: MergeOutcome)
    ensures outcome == MergeResult(files, env)
    ensures files == [] ==> outcome == MergeFailed(EmptyMergeMessage)
    ensures outcome.Merged? ==> env.loading.AllLoaded? && outcome.canvas.height == SumHeights(env.loading.images)
  {
    if files == [] {
      return MergeFailed(EmptyMergeMessage);
    }
    match env.loading {
      case ReadFailed => outcome := MergeFailed(FileReadMessage);
      case LoadFailed => outcome := MergeFailed(ImageLoadMessage);
      case AllLoaded(images) =>
        if !env.contextOk {
          return MergeFailed(NoCanvasMessage);
        }
        var canvas := Layout(images);
        if env.blob.None? {
          return MergeFailed(MergeFailedMessage);
        }
        outcome := Merged(MergedFile(env.now, env.blob.value), canvas);
    }
  }

  /** One element of an array argument: a `File` or some other value. */
  datatype Candidate = IsFile(f: FileInfo) | NotAFile

  /** The argument of `handleUpload`. */
  datatype UploadArg = NoArg | OneFile(f: FileInfo) | FileList(items: seq<Candidate>) | OtherValue

  /** `filesToUpload.filter(f => f instanceof File)` */
  function FilesOf(items: seq<Candidate>): (files: seq<FileInfo>)
    ensures |files| <= |items|
    ensures forall f :: f in files <==> IsFile(f) in items
  {
    if items == [] then []
    else (if items[0].IsFile? then [items[0].f] else []) + FilesOf(items[1..])
  }

  /** Files passed as files. */
  function AsCandidates(files: seq<FileInfo>): seq<Candidate> {
    seq(|files|, i requires 0 <= i < |files| => IsFile(files[i]))
  }

  /** Filtering an array of files keeps all of them, in order. */
  lemma {:induction false} FilesOfFiles(files: seq<FileInfo>)
    ensures FilesOf(AsCandidates(files)) == files
  {
    if files != [] {
      assert AsCandidates(files)[1..] == AsCandidates(files[1..]);
      FilesOfFiles(files[1..]);
      assert [files[0]] + files[1..] == files;
    }
  }

  datatype Selection = Selected(files: seq<FileInfo>) | Invalid(message: string)

  /** Which files `handleUpload` goes on with, or the error it stops with. */
  function Select(arg: UploadArg, current: Option<FileInfo>): (r: Selection)
    ensures r.Selected? ==> r.files != []
    ensures r.Selected? ==> forall f :: f in r.files ==> arg.OneFile? || (arg.NoArg? && current == Some(f)) || (arg.FileList? && IsFile(f) in arg.items)
    ensures arg.NoArg? ==> (r.Selected? <==> current.Some?)
    ensures arg.FileList? ==> (r.Selected? <==> exists f :: IsFile(f) in arg.items)
    ensures arg.FileList? ==>
              r == if FilesOf(arg.items) == [] then Invalid(NoValidFileMessage) else Selected(FilesOf(arg.items))
    ensures arg.NoArg? ==> r == if current.Some? then Selected([current.value]) else Invalid(NoFileMessage)
    ensures arg.OneFile? ==> r == Selected([arg.f])
    ensures arg.OtherValue? ==> r == Invalid(BadArgumentMessage)
  {
    match arg
    case NoArg => if current.None? then Invalid(NoFileMessage) else Selected([current.value])
    case OneFile(f) => Selected([f])
    case FileList(items) =>
      var files := FilesOf(items);
      if files == [] then Invalid(NoValidFileMessage)
      else assert files[0] in files; Selected(files)
    case OtherValue => Invalid(BadArgumentMessage)
  }

  /** The file handed to `uploadImage`: the only one as it is, several merged into one. */
  function Outgoing(files: seq<FileInfo>, env: MergeEnv): (sent: Option<FileInfo>)
    requires files != []
    ensures |files| == 1 ==> sent == Some(files[0])
    ensures |files| > 1 ==> (sent.Some? <==> MergeResult(files, env).Merged?)
    ensures |files| > 1 && sent.Some? ==> App.AllowedFile(sent.value.name) && sent.value.mimeType == "image/jpeg"
  {
    if |files| == 1 then Some(files[0])
    else
      var m := MergeResult(files, env);
      if m.Merged? then Some(m.file) else None
  }

  /** How `uploadImage` ends: with a task id, or by throwing (an `Error` with its message, or another value). */
  datatype UploadReply = UploadOk(taskId: string) | UploadThrew(message: Option<string>)

  /** `上传失败: ` and the thrown `Error`'s message, or `上传失败` for another thrown value. */
  function UploadFailure(message: Option<string>): string {
    "上传失败: " + message.GetOr("上传失败")
  }

  /** The page's state. */
  class PageState {
    var file: Option<FileInfo>
    var preview: Option<string>
    var taskId: Option<string>
    var uploading: bool
    var error: Option<string>
    var showCamera: bool

    /** The page as first shown. */
    constructor()
      ensures file == None && preview == None && taskId == None && !uploading && error == None && !showCamera
    {
      file := None;
      preview := None;
      taskId := None;
      uploading := false;
      error := None;
      showCamera := false;
    }

    /**
     * `handleFileSelect`: a refused file only sets the error; an accepted one replaces the
     * current file, clears the error and, once read, shows its preview.
     */
    method HandleFileSelect(selected: FileInfo, dataUrl: string)
      modifies this
      ensures CheckFile(selected).Rejected? ==>
                error == Some(CheckFile(selected).message) && file == old(file) && preview == old(preview)
      ensures CheckFile(selected) == Accepted ==> file == Some(selected) && error == None && preview == Some(dataUrl)
      ensures taskId == old(taskId) && uploading == old(uploading) && showCamera == old(showCamera)
    {
      var verdict := CheckFile(selected);
      if verdict.Rejected? {
        error := Some(verdict.message);
        return;
      }
      file := Some(selected);
      error := None;
      preview := Some(dataUrl);
    }

    /**
     * `handleUpload`: an argument that selects no file sets its error and nothing else.
     * Otherwise at most one file is sent (the only one, or the merge of several), and
     * `uploading` is false at the end: a task id on success, `上传失败: …` on any failure.
     */
    method HandleUpload(arg: UploadArg, env: MergeEnv, reply: UploadReply) returns (sent: Option<FileInfo>)
      modifies this
      ensures Select(arg, old(file)).Invalid? ==>
                && sent == None && error == Some(Select(arg, old(file)).message)
                && uploading == old(uploading) && taskId == old(taskId)
      ensures Select(arg, old(file)).Selected? ==>
                && !uploading && sent == Outgoing(Select(arg, old(file)).files, env)
                && (sent.None? ==> taskId == old(taskId) && error == Some(UploadFailure(Some(MergeResult(Select(arg, old(file)).files, env).message))))
      ensures sent.Some? && reply.UploadOk? ==> taskId == Some(reply.taskId) && error == None
      ensures sent.Some? && reply.UploadThrew? ==> taskId == old(taskId) && error == Some(UploadFailure(reply.message))
      ensures file == old(file) && preview == old(preview) && showCamera == old(showCamera)
    {
      var selection := Select(arg, file);
      if selection.Invalid? {
        error := Some(selection.message);
        return None;
      }
      var files := selection.files;
      uploading := true;
      error := None;
      var fileToUpload: FileInfo;
      if |files| == 1 {
        fileToUpload := files[0];
      } else {
        var merged := MergeImages(files, env);
        if merged.MergeFailed? {
          error := Some(UploadFailure(Some(merged.message)));
          uploading := false;
          return None;
        }
        fileToUpload := merged.file;
      }
      sent := Some(fileToUpload);
      match reply {
        case UploadOk(id) =>
          taskId := Some(id);
          uploading := false;
        case UploadThrew(message) =>
          error := Some(UploadFailure(message));
          uploading := false;
      }
    }

    /**
     * `handleCameraCapture`: the camera closes; no shots is an error, one shot becomes the
     * current file with its preview, and several are uploaded merged.
     */
    method HandleCameraCapture(files: seq<FileInfo>, dataUrl: string, env: MergeEnv, reply: UploadReply)
      returns (sent: Option<FileInfo>)
      modifies this
      ensures !showCamera
      ensures files == [] ==>
                && sent == None && error == Some(NoShotsMessage) && file == old(file) && preview == old(preview)
                && uploading == old(uploading)
      ensures |files| == 1 ==>
                && sent == None && file == Some(files[0]) && preview == Some(dataUrl)
                && error == old(error) && uploading == old(uploading)
      ensures |files| > 1 ==> sent == Outgoing(files, env) && !uploading && file == old(file) && preview == old(preview)
      ensures |files| > 1 && sent.Some? && reply.UploadOk? ==> taskId == Some(reply.taskId) && error == None
      ensures |files| > 1 && sent.Some? && reply.UploadThrew? ==>
                taskId == old(taskId) && error == Some(UploadFailure(reply.message))
      ensures |files| > 1 && sent.None? ==>
                taskId == old(taskId) && error == Some(UploadFailure(Some(MergeResult(files, env).message)))
      ensures |files| <= 1 ==> taskId == old(taskId)
    {
      showCamera := false;
      if files == [] {
        error := Some(NoShotsMessage);
        return None;
      }
      if |files| == 1 {
        file := Some(files[0]);
        preview := Some(dataUrl);
        return None;
      }
      FilesOfFiles(files);
      sent := HandleUpload(FileList(AsCandidates(files)), env, reply);
    }

    /** `handleReset`: back to the page as first shown, except that an open camera stays open. */
    method HandleReset()
      modifies this
      ensures file == None && preview == None && taskId == None && !uploading && error == None
      ensures showCamera == old(showCamera)
    {
      file := None;
      preview := None;
      taskId := None;
      uploading := false;
      error := None;
    }
  }
}
