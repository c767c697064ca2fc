/**
 * The request rules of the FastAPI backend (app_fastapi.py): the extension whitelist,
 * file-name sanitising, the naming and size rules of `api_upload`, the response shaping
 * of `api_get_task` and the path guard of `serve_frontend`.
 */
module App {
  import opened Common
  import opened Strings
  import opened Tasks

  /** `MAX_CONTENT_LENGTH`: 10 MiB. */
  const MaxContentLength: nat := 10 * 1024 * 1024

  /** `ALLOWED_EXTENSIONS` */
  const AllowedExtensions: set<string> := {"png", "jpg", "jpeg", "heic", "heif", "gif", "bmp"}

  /** `allowed_file`: the name has a dot and its lower-cased text after the last dot is allowed. */
  predicate AllowedFile(filename: string) {
    '.' in filename && Lower(filename[RFind(filename, '.') + 1..]) in AllowedExtensions
  }

  /** A name split at a dot the extension does not contain is allowed exactly for an allowed extension. */
  lemma AllowedFileOf(name: string, ext: string)
    requires '.' !in ext
    ensures AllowedFile(name + "." + ext) <==> Lower(ext) in AllowedExtensions
  {
    var f := name + "." + ext;
    assert f[|name|] == '.';
    var i := RFind(f, '.');
    assert f[|name| + 1..] == ext;
    assert f[i + 1..] == ext;
  }

  /** The characters `secure_filename` keeps: `[a-zA-Z0-9._-]`. */
  predicate SafeChar(c: char) {
    ('a' <= c <= 'z') || ('A' <= c <= 'Z') || ('0' <= c <= '9') || c == '.' || c == '_' || c == '-'
  }

  /** `secure_filename`: the base name with every other character replaced by `_`. */
  function SecureFilename(filename: string): (r: string)
    ensures |r| == |Basename(filename)|
    ensures forall i :: 0 <= i < |r| ==> SafeChar(r[i])
    ensures forall i :: 0 <= i < |r| ==>
              r[i] == if SafeChar(Basename(filename)[i]) then Basename(filename)[i] else '_'
  {
    var base := Basename(filename);
    seq(|base|, i requires 0 <= i < |base| => if SafeChar(base[i]) then base[i] else '_')
  }

  /** A sanitised name has no path separator, and sanitising it again changes nothing. */
  lemma SecureFilenameIdempotent(filename: string)
    ensures '/' !in SecureFilename(filename)
    ensures SecureFilename(SecureFilename(filename)) == SecureFilename(filename)
  {
    var r := SecureFilename(filename);
    assert '/' !in r by {
      forall i | 0 <= i < |r| ensures r[i] != '/' {
        assert SafeChar(r[i]);
      }
    }
    assert Basename(r) == r;
  }

  /**
   * The extension a missing file name or extension gets from the content type
   * (`image/jpeg` when absent): .jpg for jpeg or jpg, .png for png, .jpg otherwise.
   */
  function DefaultExtension(contentType: Option<string>): (ext: string)
    ensures ext == ".jpg" || ext == ".png"
  {
    var ct := if contentType.Some? && contentType.value != [] then contentType.value else "image/jpeg";
    if Contains(ct, "jpeg") || Contains(ct, "jpg") then ".jpg"
    else if Contains(ct, "png") then ".png"
    else ".jpg"
  }

  /** The content type picks .png exactly when it names png and neither jpeg nor jpg. */
  lemma DefaultExtensionPng(contentType: string)
    requires contentType != []
    ensures DefaultExtension(Some(contentType)) == ".png" <==>
              Contains(contentType, "png") && !Contains(contentType, "jpeg") && !Contains(contentType, "jpg")
  {
  }

  /** Without a content type the default is .jpg. */
  lemma DefaultExtensionAbsent()
    ensures DefaultExtension(None) == ".jpg"
  {
    var ct := "image/jpeg";
    assert ct[6..][..4] == "jpeg";
    assert Contains(ct[6..], "jpeg");
    assert Contains(ct[5..], "jpeg") && Contains(ct[4..], "jpeg") && Contains(ct[3..], "jpeg");
    assert Contains(ct[2..], "jpeg") && Contains(ct[1..], "jpeg");
  }

  /** The upload as FastAPI hands it over: an optional name, an optional type, the contents' size. */
  datatype Upload = Upload(filename: Option<string>, contentType: Option<string>, size: nat)

  /** How `api_upload` ends. */
  datatype UploadResponse =
    | UnsupportedFormat                       // 400, the extension is not allowed
    | TooLarge                                // 400, more than 10 MiB
    | Uploaded(taskId: string, filename: string)

  /** The HTTP status of an upload response. */
  function UploadStatus(r: UploadResponse): nat {
    if r.Uploaded? then 200 else 400
  }

  /** The name checked against the whitelist: the given one, or `upload_<time><ext>`. */
  function CheckedName(upload: Upload, firstTime: nat): string {
    if upload.filename.Some? && upload.filename.value != [] then upload.filename.value
    else "upload_" + NatToString(firstTime) + DefaultExtension(upload.contentType)
  }

  /**
   * The stored name `{name}_{timestamp}{ext}`: the sanitised name split at its extension,
   * the extension taken from the content type when it has none.
   */
  function StoredName(checked: string, contentType: Option<string>, timestamp: nat): string {
    var (name, ext) := SplitExt(SecureFilename(checked));
    name + "_" + NatToString(timestamp) + (if ext == [] then DefaultExtension(contentType) else ext)
  }

  /** Every character of `s` is one `secure_filename` keeps. */
  predicate AllSafe(s: string) {
    forall i :: 0 <= i < |s| ==> SafeChar(s[i])
  }

  lemma AllSafeConcat(a: string, b: string)
    requires AllSafe(a) && AllSafe(b)
    ensures AllSafe(a + b)
  {
    forall i | 0 <= i < |a + b| ensures SafeChar((a + b)[i]) {
      if i >= |a| {
        assert (a + b)[i] == b[i - |a|];
      }
    }
  }

  /** A stored name is made of `secure_filename` characters only: it cannot leave the upload folder. */
  lemma StoredNameSafe(checked: string, contentType: Option<string>, timestamp: nat)
    ensures AllSafe(StoredName(checked, contentType, timestamp))
  {
    var parts := SplitExt(SecureFilename(checked));
    var name, ext := parts.0, parts.1;
    AllSafeSplit(name, ext);
    var ext2 := if ext == [] then DefaultExtension(contentType) else ext;
    if ext == [] {
      DefaultExtensionSafe(contentType);
    }
    var digits := NatToString(timestamp);
    assert AllSafe(digits);
    StampedSafe(name, digits, ext2);
    assert StoredName(checked, contentType, timestamp) == name + "_" + digits + ext2;
  }

  /** Safe pieces joined around `_` stay safe. */
  lemma StampedSafe(name: string, digits: string, ext: string)
    requires AllSafe(name) && AllSafe(digits) && AllSafe(ext)
    ensures AllSafe(name + "_" + digits + ext)
  {
    assert AllSafe("_");
    AllSafeConcat(name, "_");
    AllSafeConcat(name + "_", digits);
    AllSafeConcat(name + "_" + digits, ext);
  }

  /** Both halves of a string of safe characters are safe. */
  lemma AllSafeSplit(a: string, b: string)
    requires AllSafe(a + b)
    ensures AllSafe(a) && AllSafe(b)
  {
    forall i | 0 <= i < |a| ensures SafeChar(a[i]) {
      assert a[i] == (a + b)[i];
    }
    forall i | 0 <= i < |b| ensures SafeChar(b[i]) {
      assert b[i] == (a + b)[|a| + i];
    }
  }

  lemma DefaultExtensionSafe(contentType: Option<string>)
    ensures AllSafe(DefaultExtension(contentType))
  {
    var e := DefaultExtension(contentType);
    if e == ".jpg" {
      assert AllSafe(".jpg");
    } else {
      assert AllSafe(".png");
    }
  }

  /**
   * `api_upload`: picks the name, checks the extension before reading the contents, checks
   * the size, stores the file under its sanitised, time-stamped name and creates its task.
   * `firstTime` and `timestamp` are the two `int(time.time())` readings, `id` the new
   * task's uuid and `now` the creation time.
   */
  method ApiUpload<R>(tm: TaskManager<R>, upload: Upload, firstTime: nat, timestamp: nat,
                      id: string, now: int) returns (response: UploadResponse)
    requires tm.Valid() && id !in tm.tasks
    modifies tm
    ensures tm.Valid()
    ensures !AllowedFile(CheckedName(upload, firstTime)) ==> response == UnsupportedFormat
    ensures AllowedFile(CheckedName(upload, firstTime)) && upload.size > MaxContentLength ==>
              response == TooLarge
    ensures response.Uploaded? <==>
              AllowedFile(CheckedName(upload, firstTime)) && upload.size <= MaxContentLength
    ensures !response.Uploaded? ==> tm.tasks == old(tm.tasks)
    ensures response.Uploaded? ==>
              var stored := StoredName(CheckedName(upload, firstTime), upload.contentType, timestamp);
              && response == Uploaded(id, stored)
              && tm.tasks == old(tm.tasks)[id := NewTask(id, stored, "static/uploads/" + stored, now)]
  {
    var filename: string;
    if upload.filename.None? || upload.filename.value == [] {
      var ext := DefaultExtension(upload.contentType);
      filename := "upload_" + NatToString(firstTime) + ext;
    } else {
      filename := upload.filename.value;
    }
    if !AllowedFile(filename) {
      return UnsupportedFormat;
    }
    if upload.size > MaxContentLength {
      return TooLarge;
    }
    filename := SecureFilename(filename);
    var (name, ext) := SplitExt(filename);
    if ext == [] {
      ext := DefaultExtension(upload.contentType);
    }
    filename := name + "_" + NatToString(timestamp) + ext;
    var filepath := "static/uploads/" + filename;
    var taskId := tm.CreateTask(id, filename, filepath, now);
    response := Uploaded(taskId, filename);
  }

  /** The response of `api_get_task`: 404, or the record's fields with result and error as allowed. */
  datatype TaskResponse<R> =
    | NotFound
    | TaskInfo(taskId: string, filename: string, status: string, progress: map<string, string>,
               createdAt: int, updatedAt: int, result: Option<R>, error: Option<string>)

  /**
   * `api_get_task` on what `get_task` returned: `result` is included only for a completed
   * task that has one, `error` only for a failed task with a non-empty error.
   */
  function ApiGetTask<R>(task: Option<Task<R>>): (r: TaskResponse<R>)
    ensures r.NotFound? <==> task.None?
    ensures r.TaskInfo? ==> r.status == task.value.status.Value()
    ensures r.TaskInfo? ==> (r.result.Some? <==> task.value.status == Completed && task.value.result.Some?)
    ensures r.TaskInfo? ==> (r.error.Some? <==> task.value.status == Failed && ErrorGiven(task.value.error))
    ensures r.TaskInfo? && r.result.Some? ==> r.result == task.value.result
    ensures r.TaskInfo? && r.error.Some? ==> r.error == task.value.error
  {
    match task
    case None => NotFound
    case Some(t) =>
      TaskInfo(t.taskId, t.filename, t.status.Value(), t.progress, t.createdAt, t.updatedAt,
               if t.status == Completed && t.result.Some? then t.result else None,
               if t.status == Failed && ErrorGiven(t.error) then t.error else None)
  }

  /** Querying a table: an unknown id is 404, a known one reports its stored status. */
  lemma ApiGetTaskOfTable<R>(tm: TaskManager<R>, id: string)
    ensures ApiGetTask(tm.GetTask(id)).NotFound? <==> id !in tm.tasks
    ensures id in tm.tasks ==> ApiGetTask(tm.GetTask(id)).status == tm.tasks[id].status.Value()
  {
  }

  /** What `serve_frontend` answers. */
  datatype FrontendResponse = FrontendNotFound | ServeFile(path: string) | ServeIndex

  /** The path prefixes that other routes own. */
  predicate ReservedPath(fullPath: string) {
    StartsWith(fullPath, "api/") || StartsWith(fullPath, "images/")
    || StartsWith(fullPath, "static/") || StartsWith(fullPath, "_next/")
  }

  /** `FRONTEND_BUILD_DIR`, the static export of the frontend. */
  const BuildDir := "frontend/out"

  /**
   * pathlib's `base / p` on POSIX: an absolute right operand replaces the base, an empty
   * one leaves it, anything else is appended after a `/`. No `..` is resolved.
   */
  function JoinPath(base: string, p: string): (r: string)
    ensures p != [] && p[0] == '/' ==> r == p
    ensures p == [] ==> r == base
    ensures (p == [] || p[0] != '/') ==> StartsWith(r, base)
    ensures p != [] && p[0] != '/' ==> r == base + "/" + p
  {
    if p == [] then base
    else if p[0] == '/' then p
    else base + "/" + p
  }

  /**
   * `serve_frontend(full_path)` as written, given whether `FRONTEND_BUILD_DIR / full_path`
   * is an existing regular file and whether the build directory holds `index.html`.
   */
  function ServeFrontend(fullPath: string, isFile: bool, indexExists: bool): (r: FrontendResponse)
    ensures ReservedPath(fullPath) ==> r == FrontendNotFound
    ensures !ReservedPath(fullPath) && isFile ==> r == ServeFile(JoinPath(BuildDir, fullPath))
    ensures !ReservedPath(fullPath) && !isFile ==> (r == ServeIndex <==> indexExists)
  {
    if ReservedPath(fullPath) then FrontendNotFound
    else if isFile then ServeFile(JoinPath(BuildDir, fullPath))
    else if indexExists then ServeIndex
    else FrontendNotFound
  }

  /**
   * An absolute request path is served from outside the build directory: `GET //etc/passwd`
   * reaches the route with `full_path == "/etc/passwd"`, and pathlib's join drops the base.
   */
  lemma ServeFrontendEscapes(indexExists: bool)
    ensures ServeFrontend("/etc/passwd", true, indexExists) == ServeFile("/etc/passwd")
    ensures !StartsWith("/etc/passwd", BuildDir)
  {
    assert "/etc/passwd"[0] != BuildDir[0];
  }

  /** A `..` segment is passed through untouched and climbs out of the build directory. */
  lemma ServeFrontendClimbs(rest: string, indexExists: bool)
    ensures ServeFrontend("../" + rest, true, indexExists) == ServeFile(BuildDir + "/../" + rest)
    ensures ".." in Split("../" + rest, '/')
  {
    var rel := "../" + rest;
    assert rel[0] == '.';
    assert !ReservedPath(rel) by {
      if |rel| >= 4 { assert rel[..4][0] == '.'; }
      if |rel| >= 5 { assert rel[..5][0] == '.'; }
      if |rel| >= 7 { assert rel[..7][0] == '.'; }
    }
    assert BuildDir + "/" + rel == BuildDir + "/../" + rest;
    assert rel == ".." + "/" + rest;
    SplitCons("..", '/', rest);
  }

  /** A request path that names something inside the build directory: relative, with no `..` segment. */
  predicate Confined(rel: string) {
    (rel == [] || rel[0] != '/') && ".." !in Split(rel, '/')
  }

  /**
   * `serve_frontend` as evidently intended: a path that would leave the build directory is
   * never served as a file and is handled like any other client-side route.
   */
  function ServeFrontendConfined(fullPath: string, isFile: bool, indexExists: bool): (r: FrontendResponse)
    ensures r.ServeFile? ==> r.path == JoinPath(BuildDir, fullPath) && Confined(fullPath)
    ensures r.ServeFile? ==>
              r.path == BuildDir || (StartsWith(r.path, BuildDir + "/") && Confined(r.path[|BuildDir| + 1..]))
    ensures ReservedPath(fullPath) ==> r == FrontendNotFound
    ensures !ReservedPath(fullPath) && !(isFile && Confined(fullPath)) ==> (r == ServeIndex <==> indexExists)
  {
    if ReservedPath(fullPath) then FrontendNotFound
    else if isFile && Confined(fullPath) then ServeFile(JoinPath(BuildDir, fullPath))
    else if indexExists then ServeIndex
    else FrontendNotFound
  }

  /** On every path that stays inside the build directory the correction changes nothing. */
  lemma ServeFrontendConfinedAgrees(fullPath: string, isFile: bool, indexExists: bool)
    requires Confined(fullPath)
    ensures ServeFrontendConfined(fullPath, isFile, indexExists) == ServeFrontend(fullPath, isFile, indexExists)
  {
  }
}
