/**
 * The earlier router, `Application::handle_request` of
 * src/application.rs: only GET is served, the user-agent and echo answers
 * are built in place with the field name spelled "Content-type", and a
 * missing User-Agent field panics.
 */
module LegacyApplication {
  import opened Text
  import opened Request
  import opened Response
  import opened Handlers

  /**
   * What the router needs of a request: a User-Agent field when "/user-agent"
   * is asked for (the lookup is unwrapped). The "/files" path is not part of
   * this model.
   */
  predicate Routable(request: HttpRequest) {
    request.httpMethod == Get ==>
      && (request.path == "/user-agent" ==> "User-Agent" in request.headers)
      && request.path != "/files"
  }

  /**
   * `Application::handle_request`: GET "/" is `ok()`, GET "/user-agent"
   * sends the User-Agent value, a GET of an "/echo/" path echoes it, other
   * GET paths are 404, and every other method is 501.
   */
  function HandleRequest(request: HttpRequest): (r: HttpResponse)
    requires Routable(request)
    ensures r.statusCode in {200, 404, 501} && LengthConsistent(r)
    ensures r.statusCode == 501 <==> request.httpMethod != Get
    ensures r.statusCode != 200 ==> r.headers == map[] && r.body == []
  {
    match request.httpMethod
    case Get =>
      if request.path == "/" then Ok()
      else if request.path == "/user-agent" then
        WithBody("Content-type", "text/plain", request.headers["User-Agent"])
      else if StartsWith(request.path, "/echo/") then
        WithBody("Content-type", "text/plain", EchoText(request.path))
      else NotFound()
    case _ => HttpResponse(501, "Not Implemented", map[], "")
  }

  /** GET "/" is 200 "OK" with an empty body. */
  lemma SimpleGet(request: HttpRequest)
    requires request.httpMethod == Get && request.path == "/"
    ensures HandleRequest(request) == Ok()
  {
  }

  /**
   * GET "/user-agent" answers 200 "OK" with the User-Agent value as a
   * plain-text body and its length; "Test" gives length "4".
   */
  lemma UserAgentRoute(request: HttpRequest)
    requires request.httpMethod == Get && request.path == "/user-agent"
    requires "User-Agent" in request.headers
    ensures HandleRequest(request) == WithBody("Content-type", "text/plain", request.headers["User-Agent"])
    ensures request.headers["User-Agent"] == "Test" ==>
      HandleRequest(request).headers["Content-Length"] == "4"
  {
  }

  /** A GET of an "/echo/" path echoes it with every "/echo/" removed. */
  lemma EchoRoute(request: HttpRequest)
    requires request.httpMethod == Get && StartsWith(request.path, "/echo/")
    ensures Routable(request)
    ensures HandleRequest(request) == WithBody("Content-type", "text/plain", EchoText(request.path))
  {
    assert request.path[1] == 'e';
  }

  /** GET "/echo/Hello" answers 200 "OK" with "Hello". */
  lemma EchoHello(request: HttpRequest)
    requires request.httpMethod == Get && request.path == "/echo/Hello"
    ensures HandleRequest(request).statusCode == 200 && HandleRequest(request).statusText == "OK"
    ensures HandleRequest(request).body == "Hello"
  {
    assert request.path == "/echo/" + "Hello";
    EchoWithoutSlash("Hello");
    EchoRoute(request);
  }

  /** Any other GET path is 404. */
  lemma UnknownGetRoute(request: HttpRequest)
    requires request.httpMethod == Get && request.path != "/" && request.path != "/user-agent"
    requires request.path != "/files" && !StartsWith(request.path, "/echo/")
    ensures HandleRequest(request) == NotFound()
  {
  }

  /** Every method other than GET, POST included, is `not_implemented()`. */
  lemma OtherMethodsNotImplemented(request: HttpRequest)
    requires request.httpMethod != Get
    ensures HandleRequest(request) == NotImplemented()
  {
  }
}
