/**
 * The request handlers of src/application/handlers.rs: echo, user-agent,
 * file download and file upload. Storage is reached only through the two
 * capabilities `FileReading` and `FileWriting`, modelled here as functions
 * from the call's arguments to its outcome.
 */
module Handlers {
  import opened Wrappers
  import opened Text
  import opened Request
  import opened Response

  /** The outcome of a storage call; the handlers never look at the error. */
  datatype IoResult<T> = Done(value: T) | Failed

  /** `FileReading::read_to_string`: the contents stored at a path, or an error. */
  type FileReading = string -> IoResult<string>

  /** `FileWriting::write_bytes_to_file`: the outcome of writing bytes to a path. */
  type FileWriting = (string, string) -> IoResult<()>

  /**
   * A 200 response carrying `body`, with its media type under the field
   * name `typeField` and its length under Content-Length.
   */
  function WithBody(typeField: string, mediaType: string, body: string): (r: HttpResponse)
    requires typeField != "Content-Length"
    ensures r.statusCode == 200 && r.statusText == "OK" && r.body == body
    ensures r.headers.Keys == {typeField, "Content-Length"} && r.headers[typeField] == mediaType
    ensures LengthConsistent(r)
  {
    HttpResponse(200, "OK", map[typeField := mediaType, "Content-Length" := Decimal(|body|)], body)
  }

  /* ------------------------------------------------------------ files */

  /** The name a files request asks for: the path with every "/files/" removed. */
  function FileName(path: string): (name: string)
    ensures |name| <= |path|
    ensures StartsWith(path, "/files/") ==> |name| <= |path| - |"/files/"|
    ensures |name| == |path| ==> name == path
  {
    RemoveAll(path, "/files/")
  }

  /** Where a file lives: the serve directory, a slash, then the name. */
  function FilePath(serveDir: string, name: string): (path: string)
    ensures |path| == |serveDir| + 1 + |name|
    ensures path[..|serveDir|] == serveDir && path[|serveDir|] == '/'
    ensures path[|serveDir| + 1..] == name
  {
    serveDir + "/" + name
  }

  /**
   * `handle_file_get_request`. An empty name is a bad request; otherwise
   * the one read of `serveDir/name` decides: an error of any kind is 404,
   * and the contents are sent back as an octet stream.
   */
  function FileGet(request: HttpRequest, serveDir: string, read: FileReading): (r: HttpResponse)
    ensures r.statusCode in {200, 400, 404} && LengthConsistent(r)
    ensures r.statusCode == 400 <==> FileName(request.path) == []
    ensures r.statusCode == 404 <==>
      FileName(request.path) != [] && read(FilePath(serveDir, FileName(request.path))).Failed?
    ensures r.statusCode == 400 ==> r == BadRequest()
    ensures r.statusCode == 404 ==> r == NotFound()
    ensures r.statusCode == 200 ==>
      && r.statusText == "OK"
      && r.body == read(FilePath(serveDir, FileName(request.path))).value
      && r.headers.Keys == {"Content-Type", "Content-Length"}
      && r.headers["Content-Type"] == "application/octet-stream"
  {
    var name := FileName(request.path);
    if name == [] then BadRequest()
    else match read(FilePath(serveDir, name))
      case Failed => NotFound()
      case Done(contents) => WithBody("Content-Type", "application/octet-stream", contents)
  }

  /** An empty name is answered without reading anything. */
  lemma FileGetEmptyNameReadsNothing(request: HttpRequest, serveDir: string, read1: FileReading, read2: FileReading)
    requires FileName(request.path) == []
    ensures FileGet(request, serveDir, read1) == FileGet(request, serveDir, read2) == BadRequest()
  {
  }

  /** The response depends on storage only through the one path it reads. */
  lemma FileGetReadsOnlyItsPath(request: HttpRequest, serveDir: string, read1: FileReading, read2: FileReading)
    requires read1(FilePath(serveDir, FileName(request.path))) == read2(FilePath(serveDir, FileName(request.path)))
    ensures FileGet(request, serveDir, read1) == FileGet(request, serveDir, read2)
  {
  }

  /**
   * What the upload handler needs in order not to panic: once it gets past
   * the name and body checks, a Content-Length field holding a `usize` no
   * larger than the body.
   */
  predicate PostWellFormed(request: HttpRequest) {
    FileName(request.path) != [] && request.body.Some? ==>
      && "Content-Length" in request.headers
      && ParseUsize(request.headers["Content-Length"]).Some?
      && ParseUsize(request.headers["Content-Length"]).value <= |request.body.value|
  }

  /**
   * The write an upload makes: the first Content-Length bytes of the body,
   * to `serveDir/name`. `None` when the handler answers before writing.
   */
  function Upload(request: HttpRequest, serveDir: string): (w: Option<(string, string)>)
    requires PostWellFormed(request)
    ensures w.None? <==> FileName(request.path) == [] || request.body.None?
    ensures w.Some? ==>
      && w.value.0 == FilePath(serveDir, FileName(request.path))
      && |w.value.1| == ParseUsize(request.headers["Content-Length"]).value
      && w.value.1 <= request.body.value
  {
    var name := FileName(request.path);
    if name == [] || request.body.None? then None
    else
      var n := ParseUsize(request.headers["Content-Length"]).value;
      Some((FilePath(serveDir, name), request.body.value[..n]))
  }

  /**
   * `handle_file_post_request`: an empty name or a missing body is a bad
   * request; otherwise it writes the first Content-Length bytes of the
   * body and answers 201 when the write succeeds, 404 when it fails.
   */
  function FilePost(request: HttpRequest, serveDir: string, write: FileWriting): (r: HttpResponse)
    requires PostWellFormed(request)
    ensures r.statusCode in {201, 400, 404}
    ensures r.statusCode == 400 ==> r == BadRequest()
    ensures r.statusCode == 201 ==> r == Created()
    ensures r.statusCode == 404 ==> r == NotFound()
    ensures r.statusCode == 400 <==> Upload(request, serveDir).None?
    ensures r.statusCode == 201 <==>
      Upload(request, serveDir).Some? && write(Upload(request, serveDir).value.0, Upload(request, serveDir).value.1).Done?
  {
    var name := FileName(request.path);
    if name == [] then BadRequest()
    else match request.body
      case None => BadRequest()
      case Some(bytes) =>
        var contentLength := ParseUsize(request.headers["Content-Length"]).value;
        var contents := bytes[..contentLength];
        match write(FilePath(serveDir, name), contents)
        case Done(_) => Created()
        case Failed => NotFound()
  }

  /* ---------------------------------------------------- user agent, echo */

  /**
   * `handle_user_agent_request`: the User-Agent value as a plain-text body,
   * or a bad request when the field is absent.
   */
  function UserAgent(request: HttpRequest): (r: HttpResponse)
    ensures LengthConsistent(r)
    ensures "User-Agent" !in request.headers ==> r == BadRequest()
    ensures "User-Agent" in request.headers ==>
      && r.statusCode == 200 && r.statusText == "OK"
      && r.body == request.headers["User-Agent"]
      && r.headers.Keys == {"Content-Type", "Content-Length"}
      && r.headers["Content-Type"] == "text/plain"
  {
    if "User-Agent" in request.headers
    then WithBody("Content-Type", "text/plain", request.headers["User-Agent"])
    else BadRequest()
  }

  /** The text an echo request sends back: the path with every "/echo/" removed. */
  function EchoText(path: string): (text: string)
    ensures |text| <= |path|
    ensures StartsWith(path, "/echo/") ==> |text| <= |path| - |"/echo/"|
    ensures |text| == |path| ==> text == path
  {
    RemoveAll(path, "/echo/")
  }

  /** `handle_echo_request`: always 200, the echoed text as a plain-text body. */
  function Echo(request: HttpRequest): (r: HttpResponse)
    ensures r.statusCode == 200 && r.statusText == "OK" && LengthConsistent(r)
    ensures r.body == EchoText(request.path) && |r.body| <= |request.path|
    ensures r.headers.Keys == {"Content-Type", "Content-Length"}
    ensures r.headers["Content-Type"] == "text/plain"
  {
    WithBody("Content-Type", "text/plain", EchoText(request.path))
  }

  /** "/echo/" followed by text that does not contain it echoes that text. */
  lemma EchoRoundTrip(x: string)
    requires !Occurs("/echo/", x)
    ensures EchoText("/echo/" + x) == x
  {
    RemoveAllStripsPrefix("/echo/", x);
  }

  /** In particular, text without a slash is echoed as it is. */
  lemma EchoWithoutSlash(x: string)
    requires '/' !in x
    ensures EchoText("/echo/" + x) == x
  {
    AbsentFirstChar("/echo/", x);
    EchoRoundTrip(x);
  }

  /**
   * Every "/echo/" is removed, not only the leading one: "/echo/a/echo/b"
   * echoes "ab".
   */
  lemma EchoRemovesEveryOccurrence()
    ensures EchoText("/echo/a/echo/b") == "ab"
  {
    var pat := "/echo/";
    assert "/echo/a/echo/b" == pat + "a/echo/b";
    RemoveAllPrefix(pat, "a/echo/b");
    var s := "a/echo/b";
    assert s[..|pat|] != pat by { assert s[0] != pat[0]; }
    assert s[1..] == pat + "b";
    RemoveAllPrefix(pat, "b");
  }

  /* ------------------------------------------------- an in-memory store */

  /** A reader over an in-memory store of path to contents. */
  function StoreReader(store: map<string, string>): FileReading {
    path => if path in store then Done(store[path]) else Failed
  }

  /** Storing what an upload writes. */
  function StoreUpload(store: map<string, string>, request: HttpRequest, serveDir: string): map<string, string>
    requires PostWellFormed(request)
  {
    match Upload(request, serveDir)
    case None => store
    case Some((path, contents)) => store[path := contents]
  }

  /**
   * Uploading a file and then downloading it under the same path gives
   * back exactly the uploaded bytes, whatever the store held before.
   */
  lemma UploadThenDownload(post: HttpRequest, get: HttpRequest, serveDir: string, store: map<string, string>)
    requires PostWellFormed(post) && Upload(post, serveDir).Some?
    requires get.path == post.path
    ensures FileGet(get, serveDir, StoreReader(StoreUpload(store, post, serveDir)))
            == WithBody("Content-Type", "application/octet-stream", Upload(post, serveDir).value.1)
  {
  }

  /** A store with nothing at the requested path gives 404. */
  lemma DownloadMissing(get: HttpRequest, serveDir: string, store: map<string, string>)
    requires FileName(get.path) != [] && FilePath(serveDir, FileName(get.path)) !in store
    ensures FileGet(get, serveDir, StoreReader(store)) == NotFound()
  {
  }

  /* ------------------------------------------- the handlers' own examples */

  /** The name "test.txt" that the examples below ask for. */
  lemma TestFileName()
    ensures FileName("/files/test.txt") == "test.txt"
  {
    assert "/files/test.txt" == "/files/" + "test.txt";
    AbsentFirstChar("/files/", "test.txt");
    RemoveAllStripsPrefix("/files/", "test.txt");
  }

  /** A reader that answers "Hello" for any path gives a 200 of five octets. */
  lemma FileReadExample(request: HttpRequest, read: FileReading)
    requires request == HttpRequest(Get, "/files/test.txt", "HTTP/1.1", map["Content-Length" := "5"], None)
    requires forall path :: read(path) == Done("Hello")
    ensures FileGet(request, "public", read)
            == HttpResponse(200, "OK", map["Content-Type" := "application/octet-stream", "Content-Length" := "5"], "Hello")
  {
    TestFileName();
    assert Decimal(|"Hello"|) == "5";
  }

  /** A reader that fails for any path gives 404. */
  lemma FileReadNotFoundExample(request: HttpRequest, read: FileReading)
    requires request == HttpRequest(Get, "/files/test.txt", "HTTP/1.1", map[], None)
    requires forall path :: read(path) == Failed
    ensures FileGet(request, "public", read) == NotFound()
  {
    TestFileName();
  }

  /** The upload of the examples: "Hello" with Content-Length 5. */
  lemma TestUpload(request: HttpRequest)
    requires request == HttpRequest(Post, "/files/test.txt", "HTTP/1.1", map["Content-Length" := "5"], Some("Hello"))
    ensures PostWellFormed(request)
    ensures Upload(request, "public") == Some((FilePath("public", "test.txt"), "Hello"))
  {
    TestFileName();
    assert ParseUsize("5") == Some(5) by {
      assert Decimal(5) == "5";
      DecimalRoundTrip(5);
    }
    assert "Hello"[..5] == "Hello";
  }

  /** A writer that succeeds for any path gives 201. */
  lemma FileWriteExample(request: HttpRequest, write: FileWriting)
    requires request == HttpRequest(Post, "/files/test.txt", "HTTP/1.1", map["Content-Length" := "5"], Some("Hello"))
    requires forall path, bytes :: write(path, bytes) == Done(())
    ensures PostWellFormed(request)
    ensures FilePost(request, "public", write) == Created()
  {
    TestUpload(request);
  }

  /** A writer that fails for any path gives 404. */
  lemma FileWriteFailExample(request: HttpRequest, write: FileWriting)
    requires request == HttpRequest(Post, "/files/test.txt", "HTTP/1.1", map["Content-Length" := "5"], Some("Hello"))
    requires forall path, bytes :: write(path, bytes) == Failed
    ensures PostWellFormed(request)
    ensures FilePost(request, "public", write) == NotFound()
  {
    TestUpload(request);
  }
}

