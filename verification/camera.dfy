/**
 * The camera capture session of CameraCapture.tsx: starting and stopping the camera
 * stream, taking shots, removing them and handing them over. The browser's media
 * devices, canvas and timers are inputs; each shot arrives as a finished value.
 */
module Camera {
  import opened Common

  /** A captured image: its id, its preview data URL and its JPEG file. */
  datatype Shot = Shot(id: string, dataUrl: string, file: FileInfo)

  /** What `getUserMedia` does: grant a stream (its track ids) or throw an error with a name. */
  datatype MediaOutcome = Granted(tracks: seq<nat>) | Refused(errorName: string)

  const PermissionMessage := "摄像头权限被拒绝，请在浏览器设置中允许摄像头访问"
  const NotFoundMessage := "未找到摄像头设备"
  const BusyMessage := "摄像头被其他应用占用，请关闭其他应用后重试"
  const GenericMessage := "无法访问摄像头"
  const NotStartedMessage := "摄像头未启动，请点击\"启动摄像头\"按钮"
  const NoContextMessage := "无法创建画布上下文"
  const BadSizeMessage := "视频尺寸无效，请稍候再试"
  const NoBlobMessage := "图片转换失败"

  /** The message `startCamera` shows for an error of the given name. */
  function StartErrorMessage(errorName: string): (m: string)
    ensures errorName == "NotAllowedError" || errorName == "PermissionDeniedError" ==> m == PermissionMessage
    ensures errorName == "NotFoundError" || errorName == "DevicesNotFoundError" ==> m == NotFoundMessage
    ensures errorName == "NotReadableError" || errorName == "TrackStartError" ==> m == BusyMessage
    ensures m == GenericMessage <==>
              errorName !in {"NotAllowedError", "PermissionDeniedError", "NotFoundError",
                             "DevicesNotFoundError", "NotReadableError", "TrackStartError"}
  {
    if errorName == "NotAllowedError" || errorName == "PermissionDeniedError" then PermissionMessage
    else if errorName == "NotFoundError" || errorName == "DevicesNotFoundError" then NotFoundMessage
    else if errorName == "NotReadableError" || errorName == "TrackStartError" then BusyMessage
    else GenericMessage
  }

  /** `prev.filter(img => img.id !== id)` */
  function RemoveById(shots: seq<Shot>, id: string): (r: seq<Shot>)
    ensures |r| <= |shots|
    ensures forall i :: 0 <= i < |r| ==> r[i].id != id
  {
    if shots == [] then []
    else (if shots[0].id == id then [] else [shots[0]]) + RemoveById(shots[1..], id)
  }

  /**
   * Removing keeps exactly the shots with another id, each as often as before, in their
   * original order.
   */
  lemma {:induction false} RemoveByIdKeeps(shots: seq<Shot>, id: string)
    ensures IsSubsequence(RemoveById(shots, id), shots)
    ensures forall x :: x in RemoveById(shots, id) <==> x in shots && x.id != id
    ensures forall x :: multiset(RemoveById(shots, id))[x] == if x.id == id then 0 else multiset(shots)[x]
  {
    if shots != [] {
      var rest := RemoveById(shots[1..], id);
      RemoveByIdKeeps(shots[1..], id);
      assert [shots[0]] + shots[1..] == shots;
      assert multiset(shots) == multiset([shots[0]]) + multiset(shots[1..]);
      if shots[0].id == id {
        assert RemoveById(shots, id) == rest;
        SubsequenceSkip(shots[0], rest, shots[1..]);
      } else {
        assert RemoveById(shots, id) == [shots[0]] + rest;
        SubsequenceCons(shots[0], rest, shots[1..]);
      }
    }
  }

  /** Removing an id no shot has changes nothing; removing twice is removing once. */
  lemma {:induction false} RemoveByIdIdempotent(shots: seq<Shot>, id: string)
    ensures (forall i :: 0 <= i < |shots| ==> shots[i].id != id) ==> RemoveById(shots, id) == shots
    ensures RemoveById(RemoveById(shots, id), id) == RemoveById(shots, id)
  {
    if shots != [] {
      RemoveByIdIdempotent(shots[1..], id);
      var rest := RemoveById(shots[1..], id);
      if shots[0].id == id {
        assert RemoveById(shots, id) == rest;
      } else {
        assert RemoveById(shots, id) == [shots[0]] + rest;
        assert ([shots[0]] + rest)[1..] == rest;
      }
    }
  }

  /** The files of the shots, in capture order. */
  function Files(shots: seq<Shot>): (files: seq<FileInfo>)
    ensures |files| == |shots|
    ensures forall i :: 0 <= i < |shots| ==> files[i] == shots[i].file
  {
    seq(|shots|, i requires 0 <= i < |shots| => shots[i].file)
  }

  /** The browser surroundings of one `capturePhoto` call. */
  datatype CaptureEnv = CaptureEnv(
    ios: bool,                // `isIOS()`
    start: MediaOutcome,      // what starting the camera first on iOS would get
    videoPresent: bool,       // `videoRef.current`
    canvasPresent: bool,      // `canvasRef.current`
    contextOk: bool,          // `canvas.getContext('2d')` is not null
    videoWidth: nat,          // `video.videoWidth || video.clientWidth`
    videoHeight: nat,         // `video.videoHeight || video.clientHeight`
    thrown: Option<string>,   // the message of an exception while drawing, if any
    blobOk: bool,             // `toBlob` produced a blob
    shot: Shot)               // the shot built from it (ids from the clock and `Math.random`)

  /** The message of an exception caught while drawing: `拍照失败: ` and its message or `未知错误`. */
  function CaptureFailure(message: string): string {
    "拍照失败: " + (if message != [] then message else "未知错误")
  }

  /**
   * Whether `capturePhoto` gets past its first check: a stream is held, or iOS starts one,
   * and both the video and the canvas element exist.
   */
  predicate Ready(hadStream: bool, env: CaptureEnv) {
    && (hadStream || (env.ios && env.start.Granted? && env.videoPresent))
    && env.videoPresent && env.canvasPresent
  }

  /** The capture component's state. */
  class CameraSession {
    var stream: Option<seq<nat>>       // `streamRef.current`: the held stream's tracks
    var isStreaming: bool
    var isInitializing: bool
    var cameraError: Option<string>
    var capturedImages: seq<Shot>
    var showReflectionTip: bool
    var streamRequests: nat            // the number of `getUserMedia` calls made
    var stoppedTracks: seq<nat>        // the tracks stopped so far, in order
    const maxPages: nat

    /** A fresh component: no stream, no shots, the tip shown. */
    constructor(maxPages: nat)
      ensures this.maxPages == maxPages
      ensures stream == None && !isStreaming && !isInitializing && cameraError == None
      ensures capturedImages == [] && showReflectionTip && streamRequests == 0 && stoppedTracks == []
    {
      this.maxPages := maxPages;
      stream := None;
      isStreaming := false;
      isInitializing := false;
      cameraError := None;
      capturedImages := [];
      showReflectionTip := true;
      streamRequests := 0;
      stoppedTracks := [];
    }

    /**
     * `startCamera`: with a stream already held only `isStreaming` is set. Otherwise one
     * stream is requested; a granted stream is kept when the video element exists, and a
     * refusal is reported by its mapped message.
     */
    method StartCamera(outcome: MediaOutcome, videoPresent: bool)
      modifies this
      ensures old(stream).Some? ==>
                && isStreaming && stream == old(stream) && streamRequests == old(streamRequests)
                && isInitializing == old(isInitializing) && cameraError == old(cameraError)
      ensures old(stream).None? ==> streamRequests == old(streamRequests) + 1
      ensures old(stream).None? && outcome.Granted? && videoPresent ==>
                stream == Some(outcome.tracks) && isStreaming && !isInitializing && cameraError == None
      ensures old(stream).None? && outcome.Granted? && !videoPresent ==>
                stream == None && isStreaming == old(isStreaming) && isInitializing && cameraError == None
      ensures old(stream).None? && outcome.Refused? ==>
                && stream == None && isStreaming == old(isStreaming) && !isInitializing
                && cameraError == Some(StartErrorMessage(outcome.errorName))
      ensures capturedImages == old(capturedImages) && showReflectionTip == old(showReflectionTip)
      ensures stoppedTracks == old(stoppedTracks)
    {
      if stream.Some? {
        isStreaming := true;
        return;
      }
      isInitializing := true;
      cameraError := None;
      streamRequests := streamRequests + 1;
      match outcome {
        case Granted(tracks) =>
          if videoPresent {
            stream := Some(tracks);
            isStreaming := true;
            isInitializing := false;
          }
        case Refused(name) =>
          isInitializing := false;
          cameraError := Some(StartErrorMessage(name));
      }
    }

    /**
     * `stopCamera`: stops every track of a held stream, in order, and drops it. Whatever
     * the state before, afterwards there is no stream and neither flag is set, so a second
     * call changes nothing more.
     */
    method StopCamera()
      modifies this
      ensures stream == None && !isStreaming && !isInitializing
      ensures stoppedTracks == old(stoppedTracks) + (if old(stream).Some? then old(stream).value else [])
      ensures cameraError == old(cameraError) && capturedImages == old(capturedImages)
      ensures showReflectionTip == old(showReflectionTip) && streamRequests == old(streamRequests)
    {
      if stream.Some? {
        var tracks := stream.value;
        var stopped := stoppedTracks;
        for i := 0 to |tracks|
          invariant stopped == old(stoppedTracks) + tracks[..i]
        {
          assert tracks[..i + 1] == tracks[..i] + [tracks[i]];
          stopped := stopped + [tracks[i]];
        }
        assert tracks[..|tracks|] == tracks;
        stoppedTracks := stopped;
        stream := None;
      }
      isStreaming := false;
      isInitializing := false;
    }

    /**
     * `capturePhoto`: on iOS without a stream the camera is started first. Without a
     * stream, video or canvas, without a drawing context, with a zero video size, after
     * an exception or without a blob, an error is shown and no shot is added; otherwise
     * exactly the new shot is appended.
     */
    method CapturePhoto(env: CaptureEnv)
      modifies this
      ensures capturedImages == old(capturedImages) || capturedImages == old(capturedImages) + [env.shot]
      ensures capturedImages == old(capturedImages) + [env.shot] <==>
                && Ready(old(stream).Some?, env) && env.contextOk
                && env.videoWidth != 0 && env.videoHeight != 0 && env.thrown.None? && env.blobOk
      ensures !Ready(old(stream).Some?, env) ==> cameraError == Some(NotStartedMessage)
      ensures Ready(old(stream).Some?, env) && !env.contextOk ==> cameraError == Some(NoContextMessage)
      ensures Ready(old(stream).Some?, env) && env.contextOk && (env.videoWidth == 0 || env.videoHeight == 0) ==>
                cameraError == Some(BadSizeMessage)
      ensures (Ready(old(stream).Some?, env) && env.contextOk && env.videoWidth != 0 && env.videoHeight != 0
               && env.thrown.Some?) ==> cameraError == Some(CaptureFailure(env.thrown.value))
      ensures (Ready(old(stream).Some?, env) && env.contextOk && env.videoWidth != 0 && env.videoHeight != 0
               && env.thrown.None? && !env.blobOk) ==> cameraError == Some(NoBlobMessage)
      ensures capturedImages == old(capturedImages) + [env.shot] ==>
                && cameraError == (if old(stream).Some? then old(cameraError) else None)
                && (|capturedImages| < maxPages ==> showReflectionTip)
                && (|capturedImages| >= maxPages ==> showReflectionTip == old(showReflectionTip))
      ensures capturedImages == old(capturedImages) ==> showReflectionTip == old(showReflectionTip)
      ensures !(env.ios && old(stream).None?) ==>
                && stream == old(stream) && isStreaming == old(isStreaming)
                && isInitializing == old(isInitializing) && streamRequests == old(streamRequests)
      ensures env.ios && old(stream).None? ==> streamRequests == old(streamRequests) + 1
      ensures env.ios && old(stream).None? && env.start.Granted? && env.videoPresent ==>
                stream == Some(env.start.tracks) && isStreaming && !isInitializing
      ensures env.ios && old(stream).None? && env.start.Granted? && !env.videoPresent ==>
                stream == None && isStreaming == old(isStreaming) && isInitializing
      ensures env.ios && old(stream).None? && env.start.Refused? ==>
                stream == None && isStreaming == old(isStreaming) && !isInitializing
      ensures stoppedTracks == old(stoppedTracks)
    {
      if env.ios && stream.None? {
        StartCamera(env.start, env.videoPresent);
      }
      if !env.videoPresent || !env.canvasPresent || stream.None? {
        cameraError := Some(NotStartedMessage);
        return;
      }
      if !env.contextOk {
        cameraError := Some(NoContextMessage);
        return;
      }
      if env.videoWidth == 0 || env.videoHeight == 0 {
        cameraError := Some(BadSizeMessage);
        return;
      }
      if env.thrown.Some? {
        cameraError := Some(CaptureFailure(env.thrown.value));
        return;
      }
      if !env.blobOk {
        cameraError := Some(NoBlobMessage);
        return;
      }
      capturedImages := capturedImages + [env.shot];
      if |capturedImages| < maxPages {
        showReflectionTip := true;
      }
    }

    /** `removeImage(id)` */
    method RemoveImage(id: string)
      modifies this
      ensures capturedImages == RemoveById(old(capturedImages), id)
      ensures stream == old(stream) && isStreaming == old(isStreaming) && cameraError == old(cameraError)
      ensures isInitializing == old(isInitializing) && showReflectionTip == old(showReflectionTip)
      ensures streamRequests == old(streamRequests) && stoppedTracks == old(stoppedTracks)
    {
      capturedImages := RemoveById(capturedImages, id);
    }

    /**
     * `handleFinish`: with no shots nothing is handed over and the camera keeps running;
     * otherwise the camera is stopped and the shots' files are handed over in capture order.
     */
    method HandleFinish() returns (handedOver: Option<seq<FileInfo>>)
      modifies this
      ensures old(capturedImages) == [] ==>
                && handedOver == None && stream == old(stream) && isStreaming == old(isStreaming)
                && isInitializing == old(isInitializing) && stoppedTracks == old(stoppedTracks)
      ensures old(capturedImages) != [] ==>
                && handedOver == Some(Files(old(capturedImages))) && stream == None && !isStreaming
                && !isInitializing
                && stoppedTracks == old(stoppedTracks) + (if old(stream).Some? then old(stream).value else [])
      ensures capturedImages == old(capturedImages) && cameraError == old(cameraError)
      ensures showReflectionTip == old(showReflectionTip) && streamRequests == old(streamRequests)
    {
      if capturedImages == [] {
        return None;
      }
      var files := Files(capturedImages);
      StopCamera();
      handedOver := Some(files);
    }
  }
}
