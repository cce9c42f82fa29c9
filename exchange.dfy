/**
 * Requests and responses as text: the field lines the response writer emits
 * read back through the request's field parser, the parser's own example
 * request, and whole exchanges from request text to response.
 */
module Exchange {
  import opened Wrappers
  import opened Text
  import opened Request
  import opened Response
  import opened Handlers
  import Application

  /** Fields whose names have no colon and whose names and values are trimmed. */
  predicate PlainFields(headers: map<string, string>) {
    forall k :: k in headers ==> ':' !in k && Trimmed(k) && Trimmed(headers[k])
  }

  /** Adding a plain field keeps the fields plain. */
  lemma PlainFieldsAdd(headers: map<string, string>, name: string, value: string)
    requires PlainFields(headers) && ':' !in name && Trimmed(name) && Trimmed(value)
    ensures PlainFields(headers[name := value])
  {
  }

  /** One more name adds its field line at the end. */
  lemma FieldLinesSnoc(headers: map<string, string>, order: seq<string>, n: nat)
    requires forall i :: 0 <= i < |order| ==> order[i] in headers
    requires 0 < n <= |order|
    ensures order[..n] == order[..n - 1] + [order[n - 1]]
    ensures FieldLines(headers, order[..n])
            == FieldLines(headers, order[..n - 1]) + [FieldLine(order[n - 1], headers[order[n - 1]])]
  {
    assert order[..n] == order[..n - 1] + [order[n - 1]];
  }

  /** The field lines of the first `n` names read back as those fields. */
  lemma {:induction false} FieldLinesPrefix(headers: map<string, string>, order: seq<string>, n: nat)
    requires forall i :: 0 <= i < |order| ==> order[i] in headers
    requires PlainFields(headers) && n <= |order|
    ensures var m := HeaderMap(FieldLines(headers, order[..n]));
            && (forall k :: k in m <==> k in order[..n])
            && (forall k :: k in m ==> m[k] == headers[k])
    decreases n
  {
    if n == 0 {
      assert FieldLines(headers, order[..0]) == [];
      assert HeaderMap([]) == map[];
    } else {
      FieldLinesPrefix(headers, order, n - 1);
      var prev := FieldLines(headers, order[..n - 1]);
      var name := order[n - 1];
      var line := FieldLine(name, headers[name]);
      FieldLinesSnoc(headers, order, n);
      ParseFieldLine(name, headers[name]);
      HeaderMapOverwrites(prev, line, name, headers[name]);
    }
  }

  /**
   * The field lines a response is written with, in any order that names
   * every field, parse back into exactly its field map.
   */
  lemma FieldLinesReadBack(headers: map<string, string>, order: seq<string>)
    requires Enumerates(order, headers) && PlainFields(headers)
    ensures HeaderMap(FieldLines(headers, order)) == headers
  {
    FieldLinesPrefix(headers, order, |order|);
    assert order[..|order|] == order;
  }

  /**
   * A response read back from its intended wire form: the status-line, then
   * field lines that parse into its field map, then exactly its body.
   */
  lemma ResponseReadBack(r: HttpResponse, order: seq<string>)
    requires WireSafe(r) && Enumerates(order, r.headers) && PlainFields(r.headers)
    ensures var head := ReadHead(SerializeIntended(r, order));
            && head.Some?
            && head.value.0[0] == StatusLine(r)
            && HeaderMap(head.value.0[1..]) == r.headers
            && head.value.1 == r.body
  {
    SerializeIntendedReadBack(r, order);
    var lines := [StatusLine(r)] + FieldLines(r.headers, order);
    assert lines[1..] == FieldLines(r.headers, order);
    FieldLinesReadBack(r.headers, order);
  }

  /* ------------------------------------------------ the parser's examples */

  /** The fields of the parser's tests are plain and listed once each. */
  lemma ExampleFieldsPlain(headers: map<string, string>, order: seq<string>)
    requires headers == map["Host" := "localhost:4221", "User-Agent" := "curl/7.54.0", "Accept" := "*/*"]
    requires order == ["Host", "User-Agent", "Accept"]
    ensures Enumerates(order, headers) && PlainFields(headers)
  {
    PlainFieldsAdd(map[], "Host", "localhost:4221");
    PlainFieldsAdd(map["Host" := "localhost:4221"], "User-Agent", "curl/7.54.0");
    PlainFieldsAdd(map["Host" := "localhost:4221", "User-Agent" := "curl/7.54.0"], "Accept", "*/*");
  }

  /** The three names of the parser's tests are distinct. */
  lemma ExampleFieldCount(headers: map<string, string>)
    requires headers == map["Host" := "localhost:4221", "User-Agent" := "curl/7.54.0", "Accept" := "*/*"]
    ensures |headers| == 3
  {
    assert headers.Keys == {"Host", "User-Agent", "Accept"};
  }

  /** Written in that order, those fields are the test's three lines. */
  lemma ExampleFieldLines(headers: map<string, string>, order: seq<string>, lines: seq<string>)
    requires headers == map["Host" := "localhost:4221", "User-Agent" := "curl/7.54.0", "Accept" := "*/*"]
    requires order == ["Host", "User-Agent", "Accept"]
    requires lines == ["Host: localhost:4221", "User-Agent: curl/7.54.0", "Accept: */*"]
    ensures FieldLines(headers, order) == lines
  {
    var fields := FieldLines(headers, order);
    assert fields[0] == lines[0] && fields[1] == lines[1] && fields[2] == lines[2];
  }

  /**
   * The three field lines of the parser's tests, with distinct names, give
   * a map of three entries; the value of Host keeps its later colon.
   */
  lemma ParseHeadersExample(lines: seq<string>)
    requires lines == ["Host: localhost:4221", "User-Agent: curl/7.54.0", "Accept: */*"]
    ensures HeaderMap(lines)
            == map["Host" := "localhost:4221", "User-Agent" := "curl/7.54.0", "Accept" := "*/*"]
    ensures |HeaderMap(lines)| == 3
  {
    var headers := map["Host" := "localhost:4221", "User-Agent" := "curl/7.54.0", "Accept" := "*/*"];
    var order := ["Host", "User-Agent", "Accept"];
    ExampleFieldsPlain(headers, order);
    ExampleFieldCount(headers);
    ExampleFieldLines(headers, order, lines);
    FieldLinesReadBack(headers, order);
  }

  /**
   * The request of the parser's test: GET "/" over HTTP/1.1 with the three
   * example field lines and an empty body parses into those fields, the
   * later colon of Host kept in its value.
   */
  lemma ParseExample(fields: seq<string>)
    requires fields == ["Host: localhost:4221", "User-Agent: curl/7.54.0", "Accept: */*"]
    ensures StartLineIndexable(RequestText(Get, "/", "HTTP/1.1", fields, ""))
    ensures Parse(RequestText(Get, "/", "HTTP/1.1", fields, "")) == Some(HttpRequest(Get, "/", "HTTP/1.1",
      map["Host" := "localhost:4221", "User-Agent" := "curl/7.54.0", "Accept" := "*/*"], None))
  {
    ParseRequestTextColonFreeBody(Get, "/", "HTTP/1.1", fields, "");
    ParseHeadersExample(fields);
  }

  /* ---------------------------------------------------- one connection */

  /**
   * What one connection does with the text it received: parse it (a text
   * the parser rejects makes the server panic, so it is excluded) and route
   * the request. A parsed request never carries a body.
   */
  function HandleConnection(serveDir: string, received: string, read: FileReading, write: FileWriting): (r: HttpResponse)
    requires StartLineIndexable(received) && Parse(received).Some?
    ensures r.statusCode in {200, 201, 400, 404, 501} && LengthConsistent(r)
    ensures r.statusCode == 501 <==> Words(Lines(received)[0])[0] in {"PUT", "DELETE"}
  {
    var request := Parse(received).value;
    Application.HandleRequest(serveDir, request, read, write)
  }

  /**
   * An upload that arrives as text is always a bad request: the parser
   * never fills in a body, and the upload handler refuses a request
   * without one.
   */
  lemma ParsedUploadIsRefused(serveDir: string, received: string, read: FileReading, write: FileWriting)
    requires StartLineIndexable(received) && Parse(received).Some?
    requires Application.IsUpload(Parse(received).value)
    ensures HandleConnection(serveDir, received, read, write) == BadRequest()
  {
    var request := Parse(received).value;
    Application.UploadRoute(serveDir, request, read, write);
  }

  /**
   * A request-line alone, ended by the empty line, parses whatever
   * colon-free padding follows it (the unused, zero-filled part of the
   * receive buffer).
   */
  lemma ParseRequestLineOnly(m: Method, path: string, pad: string, text: string)
    requires path != [] && NoWhitespace(path) && ':' !in pad
    requires text == RequestLine(m, path, "HTTP/1.1") + "\r\n\r\n" + pad
    ensures StartLineIndexable(text)
    ensures Parse(text) == Some(HttpRequest(m, path, "HTTP/1.1", map[], None))
  {
    assert text == RequestText(m, path, "HTTP/1.1", [], pad);
    ParseRequestTextColonFreeBody(m, path, "HTTP/1.1", [], pad);
    assert HeaderMap([]) == map[];
  }

  /** Such a text is handled as the request its request-line names. */
  lemma HandleRequestLineOnly(serveDir: string, m: Method, path: string, pad: string, text: string, read: FileReading, write: FileWriting)
    requires path != [] && NoWhitespace(path) && ':' !in pad
    requires text == RequestLine(m, path, "HTTP/1.1") + "\r\n\r\n" + pad
    ensures StartLineIndexable(text) && Parse(text).Some?
    ensures HandleConnection(serveDir, text, read, write)
            == Application.HandleRequest(serveDir, HttpRequest(m, path, "HTTP/1.1", map[], None), read, write)
  {
    ParseRequestLineOnly(m, path, pad, text);
  }

  /** "GET / HTTP/1.1" is answered 200 with no fields and no body. */
  lemma ServeRoot(serveDir: string, pad: string, text: string, read: FileReading, write: FileWriting)
    requires ':' !in pad && text == "GET / HTTP/1.1\r\n\r\n" + pad
    ensures StartLineIndexable(text) && Parse(text).Some?
    ensures HandleConnection(serveDir, text, read, write) == HttpResponse(200, "OK", map[], "")
  {
    assert RequestLine(Get, "/", "HTTP/1.1") == "GET / HTTP/1.1";
    HandleRequestLineOnly(serveDir, Get, "/", pad, text, read, write);
  }

  /** The echo request of the text below, as a value. */
  lemma EchoAbc(serveDir: string, request: HttpRequest, read: FileReading, write: FileWriting)
    requires request == HttpRequest(Get, "/echo/abc", "HTTP/1.1", map[], None)
    ensures Application.HandleRequest(serveDir, request, read, write)
            == HttpResponse(200, "OK", map["Content-Type" := "text/plain", "Content-Length" := "3"], "abc")
  {
    assert request.path == "/echo/" + "abc";
    EchoWithoutSlash("abc");
    Application.EchoRoute(serveDir, request, read, write);
  }

  /** "GET /echo/abc" is answered 200 with the text/plain body "abc" of length 3. */
  lemma ServeEcho(serveDir: string, pad: string, text: string, read: FileReading, write: FileWriting)
    requires ':' !in pad && text == "GET /echo/abc HTTP/1.1\r\n\r\n" + pad
    ensures StartLineIndexable(text) && Parse(text).Some?
    ensures HandleConnection(serveDir, text, read, write)
            == HttpResponse(200, "OK", map["Content-Type" := "text/plain", "Content-Length" := "3"], "abc")
  {
    var path := "/echo/abc";
    assert RequestLine(Get, path, "HTTP/1.1") == "GET /echo/abc HTTP/1.1";
    HandleRequestLineOnly(serveDir, Get, path, pad, text, read, write);
    EchoAbc(serveDir, HttpRequest(Get, path, "HTTP/1.1", map[], None), read, write);
  }

  /** "DELETE /" is answered 501. */
  lemma ServeDelete(serveDir: string, pad: string, text: string, read: FileReading, write: FileWriting)
    requires ':' !in pad && text == "DELETE / HTTP/1.1\r\n\r\n" + pad
    ensures StartLineIndexable(text) && Parse(text).Some?
    ensures HandleConnection(serveDir, text, read, write) == NotImplemented()
  {
    assert RequestLine(Delete, "/", "HTTP/1.1") == "DELETE / HTTP/1.1";
    HandleRequestLineOnly(serveDir, Delete, "/", pad, text, read, write);
  }

  /** The download request of the text below, as a value, against an empty store. */
  lemma MissingFile(serveDir: string, request: HttpRequest, write: FileWriting)
    requires request == HttpRequest(Get, "/files/missing.txt", "HTTP/1.1", map[], None)
    ensures Application.HandleRequest(serveDir, request, StoreReader(map[]), write) == NotFound()
  {
    assert request.path == "/files/" + "missing.txt";
    AbsentFirstChar("/files/", "missing.txt");
    RemoveAllStripsPrefix("/files/", "missing.txt");
    Application.DownloadRoute(serveDir, request, StoreReader(map[]), write);
  }

  /** The request-line of the download below. */
  lemma MissingFileLine(path: string)
    requires path == "/files/missing.txt"
    ensures RequestLine(Get, path, "HTTP/1.1") == "GET /files/missing.txt HTTP/1.1"
    ensures NoWhitespace(path)
  {
  }

  /** "GET /files/missing.txt" against an empty store is answered 404. */
  lemma ServeMissingFile(serveDir: string, pad: string, text: string, write: FileWriting)
    requires ':' !in pad && text == "GET /files/missing.txt HTTP/1.1\r\n\r\n" + pad
    ensures StartLineIndexable(text) && Parse(text).Some?
    ensures HandleConnection(serveDir, text, StoreReader(map[]), write) == NotFound()
  {
    var path := "/files/missing.txt";
    MissingFileLine(path);
    HandleRequestLineOnly(serveDir, Get, path, pad, text, StoreReader(map[]), write);
    MissingFile(serveDir, HttpRequest(Get, path, "HTTP/1.1", map[], None), write);
  }

  /** The one field line "User-Agent: curl/7" gives that one field. */
  lemma UserAgentField(fields: seq<string>)
    requires fields == ["User-Agent: curl/7"]
    ensures HeaderMap(fields) == map["User-Agent" := "curl/7"]
  {
    var name, value := "User-Agent", "curl/7";
    assert fields[0] == FieldLine(name, value);
    assert fields == [] + [fields[0]];
    ParseFieldLine(name, value);
    HeaderMapOverwrites([], fields[0], name, value);
    assert HeaderMap([]) == map[];
  }

  /** A text with field lines is handled as the request it parses into. */
  lemma HandleRequestText(serveDir: string, m: Method, path: string, fields: seq<string>, pad: string, read: FileReading, write: FileWriting)
    requires path != [] && NoWhitespace(path) && ':' !in pad
    requires forall i :: 0 <= i < |fields| ==> '\n' !in fields[i]
    ensures var text := RequestText(m, path, "HTTP/1.1", fields, pad);
            && StartLineIndexable(text) && Parse(text).Some?
            && HandleConnection(serveDir, text, read, write)
               == Application.HandleRequest(serveDir, HttpRequest(m, path, "HTTP/1.1", HeaderMap(fields), None), read, write)
  {
    ParseRequestTextColonFreeBody(m, path, "HTTP/1.1", fields, pad);
  }

  /** The user-agent request of the text below, as a value. */
  lemma UserAgentCurl(serveDir: string, request: HttpRequest, read: FileReading, write: FileWriting)
    requires request == HttpRequest(Get, "/user-agent", "HTTP/1.1", map["User-Agent" := "curl/7"], None)
    ensures Application.HandleRequest(serveDir, request, read, write)
            == HttpResponse(200, "OK", map["Content-Type" := "text/plain", "Content-Length" := "6"], "curl/7")
  {
    Application.UserAgentRoute(serveDir, request, read, write);
    assert Decimal(|"curl/7"|) == "6";
  }

  /**
   * "GET /user-agent" with the field "User-Agent: curl/7" is answered 200
   * with the text/plain body "curl/7" of length 6.
   */
  lemma ServeUserAgent(serveDir: string, fields: seq<string>, pad: string, read: FileReading, write: FileWriting)
    requires fields == ["User-Agent: curl/7"] && ':' !in pad
    ensures var text := RequestText(Get, "/user-agent", "HTTP/1.1", fields, pad);
            && StartLineIndexable(text) && Parse(text).Some?
            && HandleConnection(serveDir, text, read, write)
               == HttpResponse(200, "OK", map["Content-Type" := "text/plain", "Content-Length" := "6"], "curl/7")
  {
    HandleRequestText(serveDir, Get, "/user-agent", fields, pad, read, write);
    UserAgentField(fields);
    UserAgentCurl(serveDir, HttpRequest(Get, "/user-agent", "HTTP/1.1", map["User-Agent" := "curl/7"], None), read, write);
  }

  /**
   * Uploading "hi" with Content-Length 2 to "/files/new.txt" is answered 201
   * when the write succeeds, and a later download of that path from the
   * store that holds what was written is answered 200 with "hi".
   */
  lemma UploadThenDownloadScenario(serveDir: string, post: HttpRequest, get: HttpRequest,
                                   store: map<string, string>, read: FileReading, write: FileWriting)
    requires post == HttpRequest(Post, "/files/new.txt", "HTTP/1.1", map["Content-Length" := "2"], Some("hi"))
    requires get == HttpRequest(Get, "/files/new.txt", "HTTP/1.1", map[], None)
    requires write(FilePath(serveDir, "new.txt"), "hi") == Done(())
    ensures Application.Routable(post)
    ensures Application.HandleRequest(serveDir, post, read, write) == Created()
    ensures var stored := StoreUpload(store, post, serveDir);
            Application.HandleRequest(serveDir, get, StoreReader(stored), write)
            == HttpResponse(200, "OK", map["Content-Type" := "application/octet-stream", "Content-Length" := "2"], "hi")
  {
    assert post.path == "/files/" + "new.txt";
    AbsentFirstChar("/files/", "new.txt");
    RemoveAllStripsPrefix("/files/", "new.txt");
    assert ParseUsize("2") == Some(2) by {
      assert Decimal(2) == "2";
      DecimalRoundTrip(2);
    }
    assert "hi"[..2] == "hi";
    Application.UploadRoute(serveDir, post, read, write);
    Application.UploadThenDownloadRoute(serveDir, post, get, store, read, write);
  }
}

