/**
 * The current router, `Application::handle_request` of
 * src/application/mod.rs: an ordered match on method, then path. The file
 * capabilities it hands to the file handlers are parameters.
 */
module Application {
  import opened Text
  import opened Request
  import opened Response
  import opened Handlers

  /** A file upload: a POST whose path starts with "/files/". */
  predicate IsUpload(request: HttpRequest) {
    request.httpMethod == Post && StartsWith(request.path, "/files/")
  }

  /** What the router needs of a request: an upload must be well formed. */
  predicate Routable(request: HttpRequest) {
    IsUpload(request) ==> PostWellFormed(request)
  }

  /**
   * `Application::handle_request`. GET serves "/", "/user-agent", then any
   * "/files/" path, then any "/echo/" path, else 404; POST uploads to a
   * "/files/" path, else 404; PUT and DELETE are 501.
   */
  function HandleRequest(serveDir: string, request: HttpRequest, read: FileReading, write: FileWriting): (r: HttpResponse)
    requires Routable(request)
    ensures r.statusCode in {200, 201, 400, 404, 501} && LengthConsistent(r)
    ensures r.statusCode == 501 <==> request.httpMethod !in {Get, Post}
  {
    match request.httpMethod
    case Get =>
      if request.path == "/" then Ok()
      else if request.path == "/user-agent" then UserAgent(request)
      else if StartsWith(request.path, "/files/") then FileGet(request, serveDir, read)
      else if StartsWith(request.path, "/echo/") then Echo(request)
      else NotFound()
    case Post =>
      if StartsWith(request.path, "/files/") then FilePost(request, serveDir, write)
      else NotFound()
    case _ => NotImplemented()
  }

  /** GET "/user-agent" is the user-agent handler. */
  lemma UserAgentRoute(serveDir: string, request: HttpRequest, read: FileReading, write: FileWriting)
    requires request.httpMethod == Get && request.path == "/user-agent"
    ensures HandleRequest(serveDir, request, read, write) == UserAgent(request)
  {
  }

  /** A GET of a "/files/" path is the download handler with the serve directory. */
  lemma DownloadRoute(serveDir: string, request: HttpRequest, read: FileReading, write: FileWriting)
    requires request.httpMethod == Get && StartsWith(request.path, "/files/")
    ensures HandleRequest(serveDir, request, read, write) == FileGet(request, serveDir, read)
  {
    assert request.path[1] == 'f';
  }

  /** A GET of an "/echo/" path is the echo handler. */
  lemma EchoRoute(serveDir: string, request: HttpRequest, read: FileReading, write: FileWriting)
    requires request.httpMethod == Get && StartsWith(request.path, "/echo/")
    ensures HandleRequest(serveDir, request, read, write) == Echo(request)
  {
    assert request.path[1] == 'e';
  }

  /** Any other GET path is 404. */
  lemma UnknownGetRoute(serveDir: string, request: HttpRequest, read: FileReading, write: FileWriting)
    requires request.httpMethod == Get && request.path != "/" && request.path != "/user-agent"
    requires !StartsWith(request.path, "/files/") && !StartsWith(request.path, "/echo/")
    ensures HandleRequest(serveDir, request, read, write) == NotFound()
  {
  }

  /** A POST to a "/files/" path is the upload handler. */
  lemma UploadRoute(serveDir: string, request: HttpRequest, read: FileReading, write: FileWriting)
    requires IsUpload(request) && PostWellFormed(request)
    ensures HandleRequest(serveDir, request, read, write) == FilePost(request, serveDir, write)
  {
  }

  /** A POST anywhere else, "/" included, is 404. */
  lemma OtherPostRoute(serveDir: string, request: HttpRequest, read: FileReading, write: FileWriting)
    requires request.httpMethod == Post && !StartsWith(request.path, "/files/")
    ensures HandleRequest(serveDir, request, read, write) == NotFound()
  {
  }

  /** Only an upload ever calls the writer. */
  lemma OnlyUploadsWrite(serveDir: string, request: HttpRequest, read: FileReading, write1: FileWriting, write2: FileWriting)
    requires Routable(request) && !IsUpload(request)
    ensures HandleRequest(serveDir, request, read, write1) == HandleRequest(serveDir, request, read, write2)
  {
  }

  /** A path under "/files/" is a file request even when its remainder starts with "echo/". */
  lemma FilesBeforeEcho(serveDir: string, request: HttpRequest, read: FileReading, write: FileWriting)
    requires request.httpMethod == Get && request.path == "/files/echo/x"
    ensures !StartsWith(request.path, "/echo/")
    ensures HandleRequest(serveDir, request, read, write) == FileGet(request, serveDir, read)
    ensures FileName(request.path) == "echo/x"
  {
    assert request.path[1] == 'f';
    assert StartsWith(request.path, "/files/");
    var pat := "/files/";
    assert request.path == pat + "echo/x";
    assert !Occurs(pat, "echo/x") by {
      forall i | 0 <= i <= |"echo/x"|
        ensures !StartsWith("echo/x"[i..], pat)
      {
      }
    }
    RemoveAllStripsPrefix(pat, "echo/x");
  }

  /**
   * A GET of "/echo/" followed by text without "/echo/" in it echoes that
   * text, the empty text included.
   */
  lemma EchoIsIdentity(serveDir: string, request: HttpRequest, read: FileReading, write: FileWriting, x: string)
    requires request.httpMethod == Get && request.path == "/echo/" + x
    requires !Occurs("/echo/", x)
    ensures HandleRequest(serveDir, request, read, write).statusCode == 200
    ensures HandleRequest(serveDir, request, read, write).body == x
  {
    var p := request.path;
    assert p[..6] == "/echo/";
    assert !StartsWith(p, "/files/") by {
      assert p[1] == 'e';
    }
    assert p != "/" && p != "/user-agent" by {
      assert |p| >= 6 && p[1] == 'e';
    }
    EchoRoundTrip(x);
  }

  /**
   * After an upload to a path, a download of that same path through a store
   * holding what was written returns exactly the uploaded bytes.
   */
  lemma UploadThenDownloadRoute(serveDir: string, post: HttpRequest, get: HttpRequest, store: map<string, string>, read: FileReading, write: FileWriting)
    requires IsUpload(post) && PostWellFormed(post) && Upload(post, serveDir).Some?
    requires get.httpMethod == Get && get.path == post.path
    ensures var r := HandleRequest(serveDir, get, StoreReader(StoreUpload(store, post, serveDir)), write);
            r.statusCode == 200 && r.body == Upload(post, serveDir).value.1
  {
    var p := get.path;
    assert p[..7] == "/files/";
    assert p != "/" && p != "/user-agent" by {
      assert |p| >= 7 && p[1] == 'f';
    }
    UploadThenDownload(post, get, serveDir, store);
  }

  /* ------------------------------------------- the router's own examples */

  /** GET "/" is `ok()`. */
  lemma SimpleGet(serveDir: string, request: HttpRequest, read: FileReading, write: FileWriting)
    requires request.httpMethod == Get && request.path == "/"
    ensures HandleRequest(serveDir, request, read, write) == Ok()
  {
  }

  /** GET "/echo/Hello" echoes "Hello" with length "5". */
  lemma EchoHello(serveDir: string, request: HttpRequest, read: FileReading, write: FileWriting)
    requires request.httpMethod == Get && request.path == "/echo/Hello"
    ensures HandleRequest(serveDir, request, read, write)
            == HttpResponse(200, "OK", map["Content-Length" := "5", "Content-Type" := "text/plain"], "Hello")
  {
    assert request.path == "/echo/" + "Hello";
    EchoWithoutSlash("Hello");
    EchoIsIdentity(serveDir, request, read, write, "Hello");
  }

  /** GET "/user-agent" with User-Agent "Test" answers "Test" with length "4". */
  lemma UserAgentTest(serveDir: string, request: HttpRequest, read: FileReading, write: FileWriting)
    requires request.httpMethod == Get && request.path == "/user-agent"
    requires request.headers == map["User-Agent" := "Test"]
    ensures HandleRequest(serveDir, request, read, write)
            == HttpResponse(200, "OK", map["Content-Length" := "4", "Content-Type" := "text/plain"], "Test")
  {
  }

  /** PUT and DELETE are not implemented, whatever the path. */
  lemma PutOrDeleteNotImplemented(serveDir: string, request: HttpRequest, read: FileReading, write: FileWriting)
    requires request.httpMethod in {Put, Delete}
    ensures HandleRequest(serveDir, request, read, write) == NotImplemented()
  {
  }
}
