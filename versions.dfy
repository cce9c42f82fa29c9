/**
 * The three routers side by side: the one in src/main.rs, the one in
 * src/application.rs, and the current one in src/application/mod.rs. The
 * two earlier ones agree; the current one adds the file routes, answers
 * POST, and spells the media-type field "Content-Type".
 */
module Versions {
  import opened Text
  import opened Request
  import opened Response
  import opened Handlers
  import Application
  import LegacyApplication
  import MainRouter

  /** Wherever the application.rs router is defined, main.rs answers the same. */
  lemma LegacyMatchesMain(request: HttpRequest)
    requires LegacyApplication.Routable(request)
    ensures MainRouter.Routable(request)
    ensures LegacyApplication.HandleRequest(request) == MainRouter.HandleRequest(request)
  {
  }

  /**
   * Outside the user-agent and file routes, a GET gets the same status and
   * body from the current router as from the earlier one.
   */
  lemma GetAnswersAgree(serveDir: string, request: HttpRequest, read: FileReading, write: FileWriting)
    requires request.httpMethod == Get && request.path != "/user-agent"
    requires !StartsWith(request.path, "/files/") && LegacyApplication.Routable(request)
    ensures Application.Routable(request)
    ensures var current := Application.HandleRequest(serveDir, request, read, write);
            var legacy := LegacyApplication.HandleRequest(request);
            && current.statusCode == legacy.statusCode
            && current.statusText == legacy.statusText
            && current.body == legacy.body
  {
  }

  /**
   * An echo answer differs between the routers only in the spelling of the
   * media-type field name: "Content-Type" now, "Content-type" before.
   */
  lemma EchoFieldSpelling(serveDir: string, request: HttpRequest, read: FileReading, write: FileWriting)
    requires request.httpMethod == Get && StartsWith(request.path, "/echo/")
    ensures Application.Routable(request) && LegacyApplication.Routable(request)
    ensures var current := Application.HandleRequest(serveDir, request, read, write);
            var legacy := LegacyApplication.HandleRequest(request);
            && current.headers.Keys == {"Content-Type", "Content-Length"}
            && legacy.headers.Keys == {"Content-type", "Content-Length"}
            && current.headers["Content-Type"] == legacy.headers["Content-type"]
            && current.headers["Content-Length"] == legacy.headers["Content-Length"]
            && current.body == legacy.body == EchoText(request.path)
  {
    assert request.path[1] == 'e';
    Application.EchoRoute(serveDir, request, read, write);
  }

  /** A POST outside "/files/" is 404 now and was 501 before. */
  lemma PostOutsideFiles(serveDir: string, request: HttpRequest, read: FileReading, write: FileWriting)
    requires request.httpMethod == Post && !StartsWith(request.path, "/files/")
    ensures Application.Routable(request) && LegacyApplication.Routable(request)
    ensures Application.HandleRequest(serveDir, request, read, write) == NotFound()
    ensures LegacyApplication.HandleRequest(request).statusCode == 501
  {
    Application.OtherPostRoute(serveDir, request, read, write);
  }

  /**
   * GET "/user-agent" without the field was outside what the earlier
   * routers handle (they panic); the current one answers 400.
   */
  lemma MissingUserAgent(serveDir: string, request: HttpRequest, read: FileReading, write: FileWriting)
    requires request.httpMethod == Get && request.path == "/user-agent"
    requires "User-Agent" !in request.headers
    ensures !LegacyApplication.Routable(request) && !MainRouter.Routable(request)
    ensures Application.HandleRequest(serveDir, request, read, write) == BadRequest()
  {
  }
}
