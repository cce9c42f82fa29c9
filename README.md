# A model of a small HTTP/1.1 server

This project models the request handling of a small HTTP/1.1 server written
in Rust, and proves properties of that model. The server reads one request
per connection and parses its request-line and field lines into an
`HTTPRequest`. It routes the request by method and path to a handler:
- the root;
- echo;
- user-agent;
- file download and file upload.

It writes the resulting `HTTPResponse` back in HTTP/1.1 wire form.

Three routers from the repository's history are modelled:
- the current one, `Application::handle_request` in
  src/application/mod.rs, which builds the production `FileReader` and
  `FileWriter` itself; the model passes those two adapters in as its `read`
  and `write` parameters;
- the earlier one in src/application.rs;
- the first one in src/main.rs.

The modules follow the program:

| module | file | models |
|---|---|---|
| `Text` | text.dfy | the standard-library string operations the code relies on: `str::lines`, `split_whitespace`, `trim`, `splitn(2, ':')`, `replace(pat, "")`, `usize::to_string`, `str::parse::<usize>` and itertools' `join` |
| `Request` | request.dfy | src/request.rs: method tokens, `parse_header_line`, `parse_headers` (a loop over the lines, proved against the field-map function), `HTTPRequest::parse` |
| `Response` | response.dfy | src/response.rs: the canned responses, the `Display` serialiser, and a reader for the head of a response (section 2.1 of RFC 9112) used to state what a client reads back |
| `Handlers` | handlers.dfy | src/application/handlers.rs: the four handlers and an in-memory store standing in for the file system |
| `Application` | application.dfy | src/application/mod.rs: the current router |
| `LegacyApplication` | legacy_application.dfy | src/application.rs: the earlier router |
| `MainRouter` | main_router.dfy | src/main.rs: the first router |
| `Exchange` | exchange.dfy | a whole exchange: request text in, response out, and response field lines read back by the request parser |
| `Versions` | versions.dfy | where the three routers agree and where they differ |

Storage is reached only through two capabilities. `FileReading` is a
function from a path to `Done(contents)` or `Failed`. `FileWriting` is a
function from a path and contents to `Done(())` or `Failed`. Every handler
property holds for every such function.

A `HashMap` iterates in an unspecified order. So the serialiser takes the
order of the field lines as a parameter, `order`. `Enumerates(order,
headers)` requires that `order` lists every field exactly once.

Several source behaviours become preconditions, each named in the `requires`
of the member that needs it:
- Rust indexing that panics: `lines[0]`, `start_line[0]`, `start_line[1]`
  and `start_line[2]` in `parse`;
- `unwrap` and `expect` calls: the parse result in `handle_connection`, the
  User-Agent lookup in the earlier routers, and the Content-Length of an
  upload;
- the body slice `bytes[..content_length]`.

### Where the code departs from the intended behaviour

Each bullet names the behaviour an HTTP/1.1 server of this kind is meant
to have, then what the code does. The model follows the code in each case.

- Intended: an echo or file path loses its leading "/echo/" or "/files/"
  prefix. The code drops **every** occurrence (`str::replace`), so
  "/echo/a/echo/b" echoes "ab" (`Handlers.EchoRemovesEveryOccurrence`).
- Intended: a malformed request, or an upload without a usable
  Content-Length, is answered 400. The code panics on a request the parser
  rejects and on an upload whose Content-Length is missing, unparsable or
  longer than the body; the model makes these preconditions.
- Intended: a successful upload is answered 201 "Created" by
  `HTTPResponse::created()`. handlers.rs:91 calls it, but response.rs does
  not define it; it is modelled like the other canned responses, with no
  fields and no body.
- Intended: an upload sent as text, with a Content-Length and a body, is
  stored and answered 201, and a later download of the same path returns
  200 with those bytes. The `HTTPRequest` of request.rs has no `body`
  field, while handlers.rs reads `request.body`. The model gives the request
  an optional body, which `parse` always leaves empty, so an upload that
  arrives as text is always refused with 400
  (`Exchange.ParsedUploadIsRefused`). The 201-then-200 exchange holds only
  for a request value that carries a body
  (`Exchange.UploadThenDownloadScenario`).
- Intended: one router with one behaviour. The three routers differ (see
  `Versions`):
  - the current one spells the media-type field "Content-Type", the earlier
    ones "Content-type";
  - a POST outside "/files/" is now 404 and was 501;
  - a missing User-Agent is now 400 and used to panic.

Two facts that are not departures: no path starts with both "/files/" and
"/echo/", so the two GET routes never compete (`Application.FilesBeforeEcho`);
and the status-line always names HTTP/1.1, the version the server
implements, whatever version the request names.

## Model

| member | source | states |
|---|---|---|
| Text.IsWhitespace | src/request.rs:36-37 | the characters `trim` and `split_whitespace` drop: the Unicode White_Space set of `char::is_whitespace` |
| Text.AsciiWhitespace | src/request.rs:47 | among ASCII characters, exactly tab, line feed, vertical tab, form feed, carriage return and space are whitespace |
| Text.FindChar | src/request.rs:34-35 | the position of a character is found exactly when the character occurs; the position holds it and no earlier position does |
| Text.FindCharAt | src/request.rs:34-35 | the first occurrence of a character is the one found |
| Text.TrimStart | src/request.rs:36-37 | trimming the start never lengthens the text, and a non-empty result starts with a non-whitespace character |
| Text.TrimEnd | src/request.rs:36-37 | trimming the end never lengthens the text; a non-empty result ends with a non-whitespace character and keeps the first character |
| Text.TrimStartIsSuffix | src/request.rs:36-37 | trimming the start only removes a run of whitespace from the front |
| Text.TrimEndIsPrefix | src/request.rs:36-37 | trimming the end only removes a run of whitespace from the back |
| Text.Trim | src/request.rs:36-37 | `trim` never lengthens the text and leaves no whitespace at either end |
| Text.TrimIsSlice | src/request.rs:36-37 | `trim` returns the slice between the leading and trailing whitespace runs, and every dropped character is whitespace |
| Text.TrimUnchanged | src/request.rs:36-37 | text without whitespace at either end is left as it is |
| Text.TrimLeadingWhitespace | src/request.rs:37 | a whitespace character in front (the space after the colon) does not change the trimmed value |
| Text.TokenEnd | src/request.rs:47 | the first token ends at the first whitespace character, or at the end |
| Text.Words | src/request.rs:47 | `split_whitespace` yields only non-empty tokens without whitespace |
| Text.TokenEndOf | src/request.rs:47 | a whitespace-free word followed by whitespace or nothing is the first token |
| Text.WordsCons | src/request.rs:47 | such a word is the first token, and the rest are the tokens of what follows |
| Text.WordsLeadingWhitespace | src/request.rs:47 | leading whitespace does not change the tokens |
| Text.WordsOfJoin | src/request.rs:47 | non-empty whitespace-free words joined by spaces split back into exactly those words |
| Text.WordsOfThree | src/request.rs:47 | a request-line "method path version" splits into those three tokens |
| Text.StripCr | src/request.rs:46 | `lines` drops at most one carriage return from the end of a line |
| Text.Lines | src/request.rs:46 | no line holds a line feed, and there are no lines exactly when the text is empty |
| Text.LinesCrlf | src/request.rs:46 | a line ended by CRLF is the first line, and the rest are the lines of what follows |
| Text.LinesLast | src/request.rs:46 | a non-empty text without a line feed is one line |
| Text.StartsWith | src/application/mod.rs:34-41 | the routing guard `starts_with`: the prefix is no longer than the text and is its leading slice |
| Text.RemoveAll | src/application/handlers.rs:41 | `replace(pat, "")` never lengthens the text, shortens it by at least the pattern when it starts with it, and changes nothing when the length is kept |
| Text.RemoveAllPrefix | src/application/handlers.rs:41 | a leading occurrence is removed and the rest is processed alike |
| Text.RemoveAllAbsent | src/application/handlers.rs:41 | text in which the pattern does not occur is unchanged |
| Text.AbsentFirstChar | src/application/handlers.rs:41 | a pattern cannot occur in text that lacks its first character |
| Text.RemoveAllStripsPrefix | src/application/handlers.rs:41 | the pattern followed by text free of it gives back that text |
| Text.Decimal | src/application/handlers.rs:60 | `usize::to_string` gives a non-empty run of digits with a leading zero only for zero |
| Text.DecimalValue | src/application/handlers.rs:60 | the numeral's digits denote the number |
| Text.ParseUsize | src/application/handlers.rs:82-83 | `parse::<usize>` succeeds only with a value no larger than `usize::MAX`, and rejects text that is empty or starts with neither a digit nor '+' |
| Text.DecimalRoundTrip | src/application/handlers.rs:82-83 | every length written by `to_string` parses back to itself |
| Text.Join | src/response.rs:57 | itertools `join`: the parts with the separator between neighbours and none at the ends; `Text.JoinThenSeparator` relates it to terminating every part |
| Text.JoinThenSeparator | src/response.rs:53-61 | a non-empty join followed by one more separator ends every part with the separator |
| Request.MethodFromToken | src/request.rs:49-55 | a token is a method exactly when it is GET, POST, PUT or DELETE, and then it is that method's token |
| Request.MethodTokenRoundTrip | src/request.rs:49-55 | every method's token reads back as that method |
| Request.ParseHeaderLine | src/request.rs:33-42 | a line is a field exactly when it holds a colon |
| Request.ParseHeaderLineSplitsAtFirstColon | src/request.rs:33-42 | a field line is split at its first colon, and both halves are trimmed |
| Request.ParseFieldLine | src/request.rs:33-42 | "name: value" with a colon-free name reads back as that name and value, even when the value holds colons |
| Request.ParseHeaders | src/request.rs:21-31 | the loop over the lines builds exactly the field map of all the lines |
| Request.HeaderMapAppend | src/request.rs:24-28 | one more line updates the map by that line's field, or not at all |
| Request.HeaderMapSkips | src/request.rs:25 | a line without a colon changes nothing |
| Request.HeaderMapOverwrites | src/request.rs:26 | a field line inserts its name, overwriting an earlier value |
| Request.FieldMapSize | src/request.rs:21-31 | the map never has more entries than there are parsed lines |
| Request.HeaderMap | src/request.rs:21-31 | the map `parse_headers` builds from the lines; it never has more entries than there are lines |
| Request.FieldMapLastWins | src/request.rs:24-28 | a name is in the map exactly when some line names it, and its value comes from the last such line |
| Request.HeaderMapLastWins | src/request.rs:24-28 | the same, stated over the raw lines |
| Request.HeaderMapIgnoresColonFree | src/request.rs:24-28 | lines without a colon appended after the fields leave the map unchanged |
| Request.Parse | src/request.rs:45-60 | the result is absent exactly when the first token is not a method; otherwise it holds the first three tokens and the field map of every later line, and no body |
| Request.LinesOfTerminated | src/request.rs:46 | CRLF-terminated lines come back as those lines |
| Request.LinesOfRequestText | src/request.rs:46-47 | a request text splits into its request-line, its field lines, the empty line, then the lines of the body |
| Request.ParseRequestText | src/request.rs:45-60 | a request text with a path and version free of whitespace parses back into its method, path and version, with the map of every line after the request-line |
| Request.ParseRequestTextColonFreeBody | src/request.rs:45-60 | when the body holds no colon, the parsed field map is that of the field lines alone |
| Request.HeaderMapIgnoresBody | src/request.rs:58 | the empty line and a colon-free body add no field |
| Request.LinesHaveCharsOf | src/request.rs:46 | splitting into lines adds no character |
| Request.ParseHeaderLineRejects | src/request.rs:93-94 | the empty line and "invalid" are not fields |
| Response.LengthReadable | src/application/handlers.rs:60 | a consistent Content-Length parses back to the body's length |
| Response.StatusLine | src/response.rs:58-61 | the status-line starts with "HTTP/1.1 ", then the decimal status code, one space and the reason phrase |
| Response.FieldLine | src/response.rs:56 | one "name: value" line; `Request.ParseFieldLine` proves the request parser reads it back as the pair |
| Response.FieldLines | src/response.rs:53-56 | one "name: value" line per listed name, in the listed order |
| Response.Serialize | src/response.rs:51-63 | the wire form starts with the status-line "HTTP/1.1 code text" and CRLF |
| Response.SerializeBare | src/response.rs:53-61 | without fields, the status-line is followed by three CRLFs and the body |
| Response.Ok | src/response.rs:15-22 | `ok()` is status 200 "OK" with no fields and an empty body, so its length is consistent |
| Response.Created | src/application/handlers.rs:91 | `created()` is status 201 "Created" with no fields and an empty body, so its length is consistent |
| Response.BadRequest | src/response.rs:24-31 | `bad_request()` is status 400 "Bad Request" with no fields and an empty body, so its length is consistent |
| Response.NotFound | src/response.rs:33-40 | `not_found()` is status 404 "Not Found" with no fields and an empty body, so its length is consistent |
| Response.NotImplemented | src/response.rs:41-48 | `not_implemented()` is status 501 "Not Implemented" with no fields and an empty body, so its length is consistent |
| Response.OkWire | src/response.rs:15-22 | `ok()` is written as "HTTP/1.1 200 OK" and three CRLFs |
| Response.CreatedWire | src/application/handlers.rs:91 | `created()` is written as "HTTP/1.1 201 Created" and three CRLFs |
| Response.BadRequestWire | src/response.rs:24-31 | `bad_request()` is written as "HTTP/1.1 400 Bad Request" and three CRLFs |
| Response.NotFoundWire | src/response.rs:33-40 | `not_found()` is written as "HTTP/1.1 404 Not Found" and three CRLFs |
| Response.NotImplementedWire | src/response.rs:41-48 | `not_implemented()` is written as "HTTP/1.1 501 Not Implemented" and three CRLFs |
| Response.ReadHead | src/response.rs:58-61 | the client-side head reader (section 2.1 of RFC 9112), the independent partner of `Serialize`: the lines up to the first empty line and the rest as the body, which is a proper suffix of the text |
| Response.FindCrlf | src/response.rs:58-61 | a reader finds the first CRLF of the text, and none when there is no carriage return |
| Response.FindCrlfAfter | src/response.rs:58-61 | the first CRLF after a line without carriage returns is the one that ends it |
| Response.ReadHeadOfTerminated | src/response.rs:58-61 | a reader of CRLF-terminated head lines, the empty line and a body gets those lines and exactly that body |
| Response.StatusLineIsHeadLine | src/response.rs:60 | the status-line is a single non-empty head line |
| Response.FieldLinesAreHeadLines | src/response.rs:56 | each field line is a single non-empty head line |
| Response.SerializeIntended | src/response.rs:58-61 | the corrected wire form: it starts with the status-line and CRLF and ends with exactly the body (the corrected half of the finding) |
| Response.SerializeIntendedReadBack | src/response.rs:58-61 | the intended wire form reads back as the status-line, the field lines in order, and exactly the body |
| Response.SerializeAgreesWithFields | src/response.rs:53-61 | with at least one field, the serialiser writes the intended wire form |
| Response.SerializeBareBodyGainsCrlf | src/response.rs:58-61 | with no field, a reader gets the status-line and a body preceded by an extra CRLF |
| Response.NotFoundReadsExtraBody | src/response.rs:58-61 | `not_found()` as written reads back with body "\r\n"; as intended, with an empty body |
| Handlers.WithBody | src/application/handlers.rs:52-63 | a 200 answer has the body, the media type under its field name, and the body's length under Content-Length |
| Handlers.FileName | src/application/handlers.rs:41 | the requested name is the path with "/files/" removed: never longer than the path, shorter by at least the prefix when the path starts with it, and unchanged when nothing was removed |
| Handlers.FilePath | src/application/handlers.rs:47 | the file path is the serve directory, one slash, then the name |
| Handlers.FileGet | src/application/handlers.rs:36-64 | an empty name is `bad_request()`, a failed read is `not_found()`; otherwise 200 "OK" with the read contents as an octet stream and their length |
| Handlers.FileGetEmptyNameReadsNothing | src/application/handlers.rs:41-44 | an empty name is refused whatever storage holds |
| Handlers.FileGetReadsOnlyItsPath | src/application/handlers.rs:46-50 | the answer depends on storage only through the one path it reads |
| Handlers.Upload | src/application/handlers.rs:71-86 | no write happens exactly when the name is empty or there is no body; otherwise the first Content-Length bytes of the body go to serve_dir/name |
| Handlers.FilePost | src/application/handlers.rs:66-94 | `bad_request()` exactly when nothing is written, `created()` exactly when the write succeeds, otherwise `not_found()` |
| Handlers.UserAgent | src/application/handlers.rs:96-109 | 200 "OK" with the User-Agent value as a text/plain body and its length, or `bad_request()` without the field |
| Handlers.EchoText | src/application/handlers.rs:112 | the echoed text is the path with "/echo/" removed: never longer than the path, shorter by at least the prefix when the path starts with it, and unchanged when nothing was removed |
| Handlers.Echo | src/application/handlers.rs:111-122 | always 200 "OK", with the path minus every "/echo/" as a text/plain body with its length |
| Handlers.EchoRoundTrip | src/application/handlers.rs:112 | "/echo/" followed by text free of "/echo/" echoes that text |
| Handlers.EchoWithoutSlash | src/application/handlers.rs:112 | text without a slash is echoed as it is |
| Handlers.EchoRemovesEveryOccurrence | src/application/handlers.rs:112 | "/echo/a/echo/b" echoes "ab" |
| Handlers.UploadThenDownload | src/application/handlers.rs:36-94 | after an upload, a download of the same path from a store that holds what was written returns exactly the uploaded bytes |
| Handlers.DownloadMissing | src/application/handlers.rs:46-50 | a path the store lacks is 404 |
| Handlers.TestFileName | src/application/handlers.rs:164 | "/files/test.txt" asks for "test.txt" |
| Handlers.FileReadExample | src/application/handlers.rs:159-187 | a reader answering "Hello" gives 200 with an octet stream of length 5 |
| Handlers.FileReadNotFoundExample | src/application/handlers.rs:189-214 | a failing reader gives 404 |
| Handlers.TestUpload | src/application/handlers.rs:219-225 | the test upload is well formed and writes "Hello" to public/test.txt |
| Handlers.FileWriteExample | src/application/handlers.rs:216-233 | a succeeding writer gives 201 |
| Handlers.FileWriteFailExample | src/application/handlers.rs:235-257 | a failing writer gives 404 |
| Application.HandleRequest | src/application/mod.rs:29-48 | the answer is one of 200, 201, 400, 404, 501, with a consistent Content-Length; it is 501 exactly for methods other than GET and POST |
| Application.UserAgentRoute | src/application/mod.rs:33 | GET "/user-agent" is the user-agent handler |
| Application.DownloadRoute | src/application/mod.rs:34-36 | a GET of a "/files/" path is the download handler with the serve directory |
| Application.EchoRoute | src/application/mod.rs:37 | a GET of an "/echo/" path is the echo handler |
| Application.UnknownGetRoute | src/application/mod.rs:38 | any other GET path is 404 |
| Application.UploadRoute | src/application/mod.rs:40-43 | a POST to a "/files/" path is the upload handler |
| Application.OtherPostRoute | src/application/mod.rs:44 | any other POST, "/" included, is 404 |
| Application.OnlyUploadsWrite | src/application/mod.rs:29-48 | no request other than an upload depends on the writer |
| Application.FilesBeforeEcho | src/application/mod.rs:34-37 | "/files/echo/x" does not start with "/echo/" and is a download of "echo/x" |
| Application.EchoIsIdentity | src/application/mod.rs:37 | GET "/echo/" followed by text free of "/echo/" answers 200 with that text |
| Application.UploadThenDownloadRoute | src/application/mod.rs:34-43 | through the router, a download after an upload returns the uploaded bytes |
| Application.SimpleGet | src/application/mod.rs:69-81 | GET "/" is `ok()` |
| Application.EchoHello | src/application/mod.rs:83-102 | GET "/echo/Hello" is 200 with body "Hello", Content-Length "5" and Content-Type text/plain |
| Application.UserAgentTest | src/application/mod.rs:104-123 | GET "/user-agent" with User-Agent "Test" is 200 with body "Test" and Content-Length "4" |
| Application.PutOrDeleteNotImplemented | src/application/mod.rs:46 | PUT and DELETE, on any path, are `not_implemented()` (501, no fields, empty body) |
| LegacyApplication.HandleRequest | src/application.rs:25-87 | the answer is 200, 404 or 501, with a consistent Content-Length; 501 exactly for methods other than GET; only 200 carries fields or a body |
| LegacyApplication.SimpleGet | src/application.rs:105-119 | GET "/" is `ok()` |
| LegacyApplication.UserAgentRoute | src/application.rs:29-40 | GET "/user-agent" is 200 "OK" with the User-Agent value as a "Content-type" text/plain body and its length; "Test" has length "4" |
| LegacyApplication.EchoRoute | src/application.rs:66-77 | a GET of an "/echo/" path is 200 with the path minus every "/echo/" as a "Content-type" text/plain body |
| LegacyApplication.EchoHello | src/application.rs:121-135 | GET "/echo/Hello" is 200 "OK" with body "Hello" |
| LegacyApplication.UnknownGetRoute | src/application.rs:78 | any other GET path is 404 |
| LegacyApplication.OtherMethodsNotImplemented | src/application.rs:80-85 | every method other than GET, POST included, is 501 "Not Implemented" |
| MainRouter.HandleRequest | src/main.rs:16-53 | the answer is 200, 404 or 501, with a consistent Content-Length; 501 exactly for methods other than GET; only 200 carries fields or a body |
| MainRouter.SimpleGet | src/main.rs:57-70 | GET "/" is `ok()` |
| MainRouter.UserAgentTest | src/main.rs:87-104 | GET "/user-agent" with User-Agent "Test" is 200 "OK" with body "Test" and Content-Length "4" |
| MainRouter.EchoHello | src/main.rs:72-85 | GET "/echo/Hello" is 200 with "Hello" as a "Content-type" text/plain body |
| MainRouter.UnknownGetRoute | src/main.rs:106-119 | an unmatched GET path such as "/not-found" is 404 |
| MainRouter.OtherMethodsNotImplemented | src/main.rs:121-134 | every method other than GET, POST included, is 501 |
| Exchange.FieldLinesPrefix | src/response.rs:53-57 | the field lines of the first n listed names parse back into exactly those names with their values |
| Exchange.FieldLinesReadBack | src/response.rs:53-57 | the field lines a response is written with, in any order listing every field, parse back into exactly its field map |
| Exchange.ResponseReadBack | src/response.rs:58-61 | a reader of the intended wire form gets the status-line, field lines that parse into the response's fields, and exactly the body |
| Exchange.ExampleFieldCount | src/request.rs:116 | the three test field names are distinct |
| Exchange.ParseHeadersExample | src/request.rs:109-120 | the three test lines give a map of three entries, Host keeping its later colon |
| Exchange.ParseExample | src/request.rs:67-89 | the test request parses into GET "/" HTTP/1.1 with those three fields |
| Exchange.HandleConnection | src/application/mod.rs:51-62 | a received request is answered 200, 201, 400, 404 or 501 with a consistent Content-Length; 501 exactly when the first token is PUT or DELETE |
| Exchange.ParsedUploadIsRefused | src/application/handlers.rs:75-76 | an upload that arrives as text is always 400, since the parser never fills in a body |
| Exchange.ParseRequestLineOnly | src/application/mod.rs:55-58 | a request-line with its empty line parses the same whatever colon-free padding follows |
| Exchange.HandleRequestLineOnly | src/application/mod.rs:51-62 | such a text is answered as the request its request-line names, with no fields |
| Exchange.HandleRequestText | src/application/mod.rs:51-62 | a request text with field lines is answered as the request with those lines' field map |
| Exchange.ServeRoot | src/application/mod.rs:31-32 | "GET / HTTP/1.1" is 200 with no fields and an empty body |
| Exchange.EchoAbc | src/application/handlers.rs:111-122 | GET "/echo/abc" is 200 text/plain "abc" of length 3 |
| Exchange.ServeEcho | src/application/mod.rs:37 | the text "GET /echo/abc HTTP/1.1" is answered 200 text/plain "abc" of length 3 |
| Exchange.ServeDelete | src/application/mod.rs:46 | the text "DELETE / HTTP/1.1" is answered 501 |
| Exchange.MissingFile | src/application/handlers.rs:46-50 | GET "/files/missing.txt" against an empty store is 404 |
| Exchange.ServeMissingFile | src/application/mod.rs:34-36 | the text "GET /files/missing.txt HTTP/1.1" against an empty store is answered 404 |
| Exchange.UserAgentField | src/request.rs:33-42 | the line "User-Agent: curl/7" gives exactly that field |
| Exchange.UserAgentCurl | src/application/handlers.rs:96-109 | GET "/user-agent" with User-Agent "curl/7" is 200 text/plain "curl/7" of length 6 |
| Exchange.ServeUserAgent | src/application/mod.rs:33 | that request as text is answered 200 text/plain "curl/7" of length 6 |
| Exchange.UploadThenDownloadScenario | src/application/mod.rs:39-43 | uploading "hi" with Content-Length 2 to "/files/new.txt" is 201, and downloading it afterwards is 200 with "hi" |
| Versions.LegacyMatchesMain | src/application.rs:25-87 | wherever the application.rs router is defined, the main.rs router gives the same answer |
| Versions.GetAnswersAgree | src/application/mod.rs:29-48 | outside the user-agent and file routes, a GET gets the same status, reason and body from the current and the earlier router |
| Versions.EchoFieldSpelling | src/application.rs:66-77 | the routers' echo answers differ only in the spelling "Content-Type" or "Content-type" |
| Versions.PostOutsideFiles | src/application/mod.rs:39-44 | a POST outside "/files/" is 404 now and was 501 before |
| Versions.MissingUserAgent | src/application/handlers.rs:107 | GET "/user-agent" without the field is 400 now; the earlier routers cannot handle it |

## Left out

- Sockets, threads and `println!`: the TCP listener, `main`, `handle`,
  `handle_connection`'s stream reads and `send_response`'s writes are I/O.
  `Exchange.HandleConnection` takes the received text and returns the
  response value.
- The production adapters `FileReader` and `FileWriter` call the file
  system. The current router builds them itself (src/application/mod.rs:35
  and :42); `Application.HandleRequest` takes them as its `read` and `write`
  parameters instead. Every property is stated for an arbitrary reading or
  writing function, plus an in-memory store.
- Bytes and UTF-8: requests, bodies and file contents are modelled as
  character strings. `String::from_utf8_lossy` and the conversion of an
  upload body to a byte vector are not modelled. A Content-Length counts
  characters, which equals bytes for ASCII text. The zero padding of the
  receive buffer is covered as any colon-free text after the empty line.
- The `"/files"` arm of src/application.rs:41-65 opens the file system
  directly and unwraps every step. `LegacyApplication.Routable` excludes
  that path.
- The kinds of I/O errors: each handler maps every error to the same
  answer, so an outcome is just `Done` or `Failed`.
- The order of `HashMap` iteration is unspecified. It is an explicit
  parameter `order` of the serialiser, so each property holds for every
  order.
- `Application::_new`'s default serve directory "public" appears only as an
  argument in the handler examples.
- Text.ParseUsize: modelled for a 64-bit `usize`, accepting an optional '+'
  and decimal digits up to `usize::MAX`. The error kinds of
  `ParseIntError` are not distinguished.

## Findings

| source | as written | input that shows it | evidently intended | confidence | as-written member | corrected member |
|---|---|---|---|---|---|---|
| src/response.rs:53-61 | the field lines are joined and then followed by "\r\n\r\n", so a response without fields gets an empty field line. The wire form is the status-line and three CRLFs, and a reader takes the third CRLF as part of the body | `not_found()` is written "HTTP/1.1 404 Not Found\r\n\r\n\r\n"; its body reads back as "\r\n" where it should be empty | each field line ended by CRLF, then one empty line: "HTTP/1.1 404 Not Found\r\n\r\n", whose body reads back unchanged | not executed | Response.NotFoundReadsExtraBody | Response.SerializeIntendedReadBack |

The as-written serialiser is `Response.Serialize`.
`Response.SerializeBareBodyGainsCrlf` shows that every field-less response
gains a leading CRLF in its body. The corrected serialiser is
`Response.SerializeIntended`. `Response.SerializeAgreesWithFields` proves
that it agrees with the original whenever there is at least one field.
`Exchange.ResponseReadBack` is stated over the corrected form.
