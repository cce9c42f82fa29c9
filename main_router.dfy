/**
 * The earliest router, `handle_request` of src/main.rs: the same shape as
 * the earlier application router, without any file route.
 */
module MainRouter {
  import opened Text
  import opened Request
  import opened Response
  import opened Handlers

  /** What the router needs of a request: a User-Agent field for "/user-agent". */
  predicate Routable(request: HttpRequest) {
    request.httpMethod == Get && request.path == "/user-agent" ==> "User-Agent" in request.headers
  }

  /**
   * `handle_request`: GET "/" is `ok()`, GET "/user-agent" sends the
   * User-Agent value, a GET of an "/echo/" path echoes it, other GET paths
   * are 404, and every other method is 501.
   */
  function HandleRequest(request: HttpRequest): (r: HttpResponse)
    requires Routable(request)
    ensures r.statusCode in {200, 404, 501} && LengthConsistent(r)
    ensures r.statusCode == 501 <==> request.httpMethod != Get
    ensures r.statusCode != 200 ==> r.headers == map[] && r.body == []
  {
    match request.httpMethod
    case Get =>
      if request.path == "/" then Ok()
      else if request.path == "/user-agent" then
        WithBody("Content-type", "text/plain", request.headers["User-Agent"])
      else if StartsWith(request.path, "/echo/") then
        WithBody("Content-type", "text/plain", EchoText(request.path))
      else NotFound()
    case _ => HttpResponse(501, "Not Implemented", map[], "")
  }

  /** GET "/" is 200 "OK" with an empty body. */
  lemma SimpleGet(request: HttpRequest)
    requires request.httpMethod == Get && request.path == "/"
    ensures HandleRequest(request) == Ok()
  {
  }

  /** GET "/user-agent" with User-Agent "Test" answers 200 "OK", "Test" and length "4". */
  lemma UserAgentTest(request: HttpRequest)
    requires request.httpMethod == Get && request.path == "/user-agent"
    requires request.headers == map["User-Agent" := "Test"]
    ensures HandleRequest(request).statusCode == 200 && HandleRequest(request).statusText == "OK"
    ensures HandleRequest(request).body == "Test"
    ensures HandleRequest(request).headers["Content-Length"] == "4"
  {
  }

  /** GET "/echo/Hello" answers "Hello" as plain text. */
  lemma EchoHello(request: HttpRequest)
    requires request.httpMethod == Get && request.path == "/echo/Hello"
    ensures HandleRequest(request) == WithBody("Content-type", "text/plain", "Hello")
  {
    assert request.path == "/echo/" + "Hello";
    assert request.path[1] == 'e';
    EchoWithoutSlash("Hello");
  }

  /** An unmatched GET path such as "/not-found" is 404 "Not Found". */
  lemma UnknownGetRoute(request: HttpRequest)
    requires request.httpMethod == Get && request.path != "/" && request.path != "/user-agent"
    requires !StartsWith(request.path, "/echo/")
    ensures HandleRequest(request) == NotFound()
  {
  }

  /** Every method other than GET, POST included, is `not_implemented()`. */
  lemma OtherMethodsNotImplemented(request: HttpRequest)
    requires request.httpMethod != Get
    ensures HandleRequest(request) == NotImplemented()
  {
  }
}
