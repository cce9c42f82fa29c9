/**
 * The response value of src/response.rs, its fixed constructors (the
 * status codes of section 15 of RFC 9110) and its wire form: the
 * status-line of section 4 of RFC 9112, the field lines, an empty line and
 * the body.
 */
module Response {
  import opened Wrappers
  import opened Text

  /** Rust's `u16`, the type of the status code. */
  newtype u16 = x: int | 0 <= x < 0x1_0000

  datatype HttpResponse = HttpResponse(
    statusCode: u16,
    statusText: string,
    headers: map<string, string>,
    body: string)

  /** A response with no fields and an empty body. */
  function Bare(code: u16, text: string): HttpResponse {
    HttpResponse(code, text, map[], "")
  }

  /** `HTTPResponse::ok`. */
  function Ok(): (r: HttpResponse)
    ensures r.statusCode == 200 && r.statusText == "OK"
    ensures r.headers == map[] && r.body == "" && LengthConsistent(r)
  {
    Bare(200, "OK")
  }

  /**
   * `HTTPResponse::created`, which the file-upload handler calls; the
   * response type shown does not define it, so it is built like the others.
   */
  function Created(): (r: HttpResponse)
    ensures r.statusCode == 201 && r.statusText == "Created"
    ensures r.headers == map[] && r.body == "" && LengthConsistent(r)
  {
    Bare(201, "Created")
  }

  /** `HTTPResponse::bad_request`. */
  function BadRequest(): (r: HttpResponse)
    ensures r.statusCode == 400 && r.statusText == "Bad Request"
    ensures r.headers == map[] && r.body == "" && LengthConsistent(r)
  {
    Bare(400, "Bad Request")
  }

  /** `HTTPResponse::not_found`. */
  function NotFound(): (r: HttpResponse)
    ensures r.statusCode == 404 && r.statusText == "Not Found"
    ensures r.headers == map[] && r.body == "" && LengthConsistent(r)
  {
    Bare(404, "Not Found")
  }

  /** `HTTPResponse::not_implemented`. */
  function NotImplemented(): (r: HttpResponse)
    ensures r.statusCode == 501 && r.statusText == "Not Implemented"
    ensures r.headers == map[] && r.body == "" && LengthConsistent(r)
  {
    Bare(501, "Not Implemented")
  }

  /**
   * The body-length invariant the server keeps (section 8.6 of RFC 9110):
   * a non-empty body comes with a Content-Length field, and that field is
   * the decimal numeral of the body's length in bytes.
   */
  predicate LengthConsistent(r: HttpResponse) {
    && (r.body != [] ==> "Content-Length" in r.headers)
    && ("Content-Length" in r.headers ==> r.headers["Content-Length"] == Decimal(|r.body|))
  }

  /** A client that parses the Content-Length field reads the body's length. */
  lemma LengthReadable(r: HttpResponse)
    requires LengthConsistent(r) && "Content-Length" in r.headers
    requires |r.body| <= USIZE_MAX
    ensures ParseUsize(r.headers["Content-Length"]) == Some(|r.body|)
  {
    DecimalRoundTrip(|r.body|);
  }

  /* ------------------------------------------------------------ the wire */

  /** The status-line: protocol version, status code and reason phrase. */
  function StatusLine(r: HttpResponse): (line: string)
    ensures StartsWith(line, "HTTP/1.1 ")
    ensures var digits := Decimal(r.statusCode as nat);
            && 10 + |digits| <= |line|
            && line[9..9 + |digits|] == digits && line[9 + |digits|] == ' '
            && line[10 + |digits|..] == r.statusText
  {
    var digits := Decimal(r.statusCode as nat);
    var line := "HTTP/1.1 " + digits + " " + r.statusText;
    assert line[..9] == "HTTP/1.1 ";
    assert line[9..9 + |digits|] == digits;
    assert line[10 + |digits|..] == r.statusText;
    line
  }

  /** One field line, "name: value". */
  function FieldLine(name: string, value: string): string {
    name + ": " + value
  }

  /** The field lines of `headers`, in the order `order` names them. */
  function FieldLines(headers: map<string, string>, order: seq<string>): (r: seq<string>)
    requires forall i :: 0 <= i < |order| ==> order[i] in headers
    ensures |r| == |order|
    ensures forall i :: 0 <= i < |order| ==> r[i] == FieldLine(order[i], headers[order[i]])
  {
    seq(|order|, i requires 0 <= i < |order| => FieldLine(order[i], headers[order[i]]))
  }

  /**
   * `order` names every field of `headers` exactly once. The serialiser
   * walks a `HashMap`, whose order is unspecified, so the order is a
   * parameter.
   */
  predicate Enumerates(order: seq<string>, headers: map<string, string>) {
    && (forall i :: 0 <= i < |order| ==> order[i] in headers)
    && (forall k :: k in headers ==> k in order)
    && (forall i, j :: 0 <= i < j < |order| ==> order[i] != order[j])
  }

  /**
   * `Display::fmt`: the status-line and "\r\n", the field lines joined by
   * "\r\n", then "\r\n\r\n" and the body.
   */
  function Serialize(r: HttpResponse, order: seq<string>): (wire: string)
    requires Enumerates(order, r.headers)
    ensures StartsWith(wire, StatusLine(r) + "\r\n")
  {
    var head := StatusLine(r) + "\r\n";
    var wire := head + Join(FieldLines(r.headers, order), "\r\n") + "\r\n\r\n" + r.body;
    assert wire[..|head|] == head;
    wire
  }

  /**
   * A response without fields, as every fixed constructor builds, is
   * written as its status-line, three line ends and its body.
   */
  lemma SerializeBare(r: HttpResponse)
    requires r.headers == map[]
    ensures Enumerates([], r.headers)
    ensures Serialize(r, []) == StatusLine(r) + "\r\n\r\n\r\n" + r.body
  {
  }

  /** A three-digit code is written as its three digits. */
  lemma DecimalThreeDigits(n: nat)
    requires 100 <= n < 1000
    ensures Decimal(n) == [DigitChar(n / 100), DigitChar(n / 10 % 10), DigitChar(n % 10)]
  {
    assert Decimal(n / 10) == [DigitChar(n / 100), DigitChar(n / 10 % 10)];
  }

  /** `ok()` is 200 "OK" with no fields and no body, byte for byte. */
  lemma OkWire()
    ensures StatusLine(Ok()) == "HTTP/1.1 200 OK"
    ensures Serialize(Ok(), []) == "HTTP/1.1 200 OK\r\n\r\n\r\n"
  {
    DecimalThreeDigits(200);
    SerializeBare(Ok());
  }

  /** `created()` is 201 "Created" with no fields and no body. */
  lemma CreatedWire()
    ensures StatusLine(Created()) == "HTTP/1.1 201 Created"
    ensures Serialize(Created(), []) == "HTTP/1.1 201 Created\r\n\r\n\r\n"
  {
    DecimalThreeDigits(201);
    SerializeBare(Created());
  }

  /** `bad_request()` is 400 "Bad Request" with no fields and no body. */
  lemma BadRequestWire()
    ensures StatusLine(BadRequest()) == "HTTP/1.1 400 Bad Request"
    ensures Serialize(BadRequest(), []) == "HTTP/1.1 400 Bad Request\r\n\r\n\r\n"
  {
    DecimalThreeDigits(400);
    SerializeBare(BadRequest());
  }

  /** `not_found()` is 404 "Not Found" with no fields and no body. */
  lemma NotFoundWire()
    ensures StatusLine(NotFound()) == "HTTP/1.1 404 Not Found"
    ensures Serialize(NotFound(), []) == "HTTP/1.1 404 Not Found\r\n\r\n\r\n"
  {
    DecimalThreeDigits(404);
    SerializeBare(NotFound());
  }

  /** `not_implemented()` is 501 "Not Implemented" with no fields and no body. */
  lemma NotImplementedWire()
    ensures StatusLine(NotImplemented()) == "HTTP/1.1 501 Not Implemented"
    ensures Serialize(NotImplemented(), []) == "HTTP/1.1 501 Not Implemented\r\n\r\n\r\n"
  {
    DecimalThreeDigits(501);
    SerializeBare(NotImplemented());
  }

  /* ------------------------------------------------ reading the head back */

  /** The index of the first "\r\n" in `s`, if there is one. */
  function FindCrlf(s: string): (r: Option<nat>)
    ensures r.Some? ==> r.value + 2 <= |s| && s[r.value] == '\r' && s[r.value + 1] == '\n'
    ensures r.Some? ==> forall k :: 0 <= k < r.value ==> !(s[k] == '\r' && s[k + 1] == '\n')
    ensures '\r' !in s ==> r == None
  {
    if |s| < 2 then None
    else if s[0] == '\r' && s[1] == '\n' then Some(0)
    else match FindCrlf(s[1..])
      case None => None
      case Some(i) => Some(i + 1)
  }

  /** A line without a carriage return, then "\r\n": the first CRLF ends the line. */
  lemma {:induction false} FindCrlfAfter(line: string, rest: string)
    requires '\r' !in line
    ensures FindCrlf(line + "\r\n" + rest) == Some(|line|)
    decreases |line|
  {
    var s := line + "\r\n" + rest;
    if line != [] {
      assert s[0] == line[0] && line[0] in line;
      assert s[1..] == line[1..] + "\r\n" + rest;
      FindCrlfAfter(line[1..], rest);
    }
  }

  /**
   * How a client reads a response head (section 2.1 of RFC 9112): lines
   * ended by "\r\n" up to the first empty one; everything after that empty
   * line is the body. `None` when no empty line ends the head.
   */
  function ReadHead(s: string): (r: Option<(seq<string>, string)>)
    ensures r.Some? ==> |r.value.1| + 2 <= |s| && s[|s| - |r.value.1|..] == r.value.1
    decreases |s|
  {
    match FindCrlf(s)
    case None => None
    case Some(i) =>
      if i == 0 then Some(([], s[2..]))
      else match ReadHead(s[i + 2..])
        case None => None
        case Some((lines, rest)) => Some(([s[..i]] + lines, rest))
  }

  /** A line that can stand in a head: non-empty and without a carriage return. */
  predicate HeadLine(line: string) {
    line != [] && '\r' !in line
  }

  /**
   * Head lines each ended by "\r\n", then the empty line, then a body: the
   * reader gets back exactly those lines and exactly that body.
   */
  lemma {:induction false} ReadHeadOfTerminated(lines: seq<string>, body: string)
    requires forall i :: 0 <= i < |lines| ==> HeadLine(lines[i])
    ensures ReadHead(Terminated(lines, "\r\n") + "\r\n" + body) == Some((lines, body))
    decreases |lines|
  {
    var s := Terminated(lines, "\r\n") + "\r\n" + body;
    if lines == [] {
      assert s == [] + "\r\n" + body;
      FindCrlfAfter([], body);
      assert s[2..] == body;
    } else {
      var line := lines[0];
      var tail := Terminated(lines[1..], "\r\n") + "\r\n" + body;
      assert s == line + "\r\n" + tail;
      FindCrlfAfter(line, tail);
      assert s[..|line|] == line;
      assert s[|line| + 2..] == tail;
      ReadHeadOfTerminated(lines[1..], body);
      assert [line] + lines[1..] == lines;
    }
  }

  /** No field name, value or reason phrase holds a carriage return. */
  predicate WireSafe(r: HttpResponse) {
    && '\r' !in r.statusText
    && (forall k :: k in r.headers ==> '\r' !in k && '\r' !in r.headers[k])
  }

  /** The status-line is a head line when the reason phrase is. */
  lemma StatusLineIsHeadLine(r: HttpResponse)
    requires '\r' !in r.statusText
    ensures HeadLine(StatusLine(r))
  {
    var digits := Decimal(r.statusCode as nat);
    assert '\r' !in digits by {
      assert forall i :: 0 <= i < |digits| ==> IsDigit(digits[i]);
    }
  }

  /** Field lines of a wire-safe response are head lines. */
  lemma FieldLinesAreHeadLines(r: HttpResponse, order: seq<string>)
    requires WireSafe(r) && Enumerates(order, r.headers)
    ensures forall i :: 0 <= i < |order| ==> HeadLine(FieldLines(r.headers, order)[i])
  {
    forall i | 0 <= i < |order|
      ensures HeadLine(FieldLines(r.headers, order)[i])
    {
      var k := order[i];
      var line := FieldLines(r.headers, order)[i];
      assert line == k + ": " + r.headers[k];
      assert line[|k|] == ':';
    }
  }

  /**
   * The wire form the head reader expects: every line of the head, the
   * status-line included, ended by "\r\n", then the empty line and the body.
   */
  function SerializeIntended(r: HttpResponse, order: seq<string>): (wire: string)
    requires Enumerates(order, r.headers)
    ensures StartsWith(wire, StatusLine(r) + "\r\n")
    ensures |r.body| <= |wire| && wire[|wire| - |r.body|..] == r.body
  {
    var lines := [StatusLine(r)] + FieldLines(r.headers, order);
    var head := Terminated(lines, "\r\n");
    assert lines[0] == StatusLine(r) && lines[1..] == FieldLines(r.headers, order);
    assert head == StatusLine(r) + "\r\n" + Terminated(lines[1..], "\r\n");
    var wire := head + "\r\n" + r.body;
    assert wire[..|StatusLine(r) + "\r\n"|] == StatusLine(r) + "\r\n";
    assert wire[|wire| - |r.body|..] == r.body;
    wire
  }

  /**
   * A client reading the intended wire form gets the status-line, the field
   * lines in order, and exactly the body.
   */
  lemma SerializeIntendedReadBack(r: HttpResponse, order: seq<string>)
    requires WireSafe(r) && Enumerates(order, r.headers)
    ensures ReadHead(SerializeIntended(r, order))
            == Some(([StatusLine(r)] + FieldLines(r.headers, order), r.body))
  {
    var lines := [StatusLine(r)] + FieldLines(r.headers, order);
    StatusLineIsHeadLine(r);
    FieldLinesAreHeadLines(r, order);
    assert forall i :: 0 <= i < |lines| ==> HeadLine(lines[i]) by {
      forall i | 0 <= i < |lines|
        ensures HeadLine(lines[i])
      {
        if i > 0 {
          assert lines[i] == FieldLines(r.headers, order)[i - 1];
        }
      }
    }
    ReadHeadOfTerminated(lines, r.body);
  }

  /** With at least one field, the serialiser writes the intended form. */
  lemma SerializeAgreesWithFields(r: HttpResponse, order: seq<string>)
    requires Enumerates(order, r.headers) && r.headers != map[]
    ensures Serialize(r, order) == SerializeIntended(r, order)
  {
    var status := StatusLine(r);
    var fields := FieldLines(r.headers, order);
    var joined := Join(fields, "\r\n");
    assert fields != [] by {
      var k :| k in r.headers;
      assert k in order;
    }
    assert Terminated([status] + fields, "\r\n") == status + "\r\n" + Terminated(fields, "\r\n") by {
      assert ([status] + fields)[1..] == fields;
    }
    JoinThenSeparator(fields, "\r\n");
    assert status + "\r\n" + (joined + "\r\n") + "\r\n" + r.body
        == status + "\r\n" + joined + "\r\n\r\n" + r.body;
  }

  /**
   * Without fields the serialiser writes one "\r\n" too many: the head
   * ends at the first empty line, so a client reads "\r\n" in front of the
   * body.
   */
  lemma SerializeBareBodyGainsCrlf(r: HttpResponse)
    requires r.headers == map[] && '\r' !in r.statusText
    ensures Enumerates([], r.headers)
    ensures ReadHead(Serialize(r, [])) == Some(([StatusLine(r)], "\r\n" + r.body))
  {
    StatusLineIsHeadLine(r);
    SerializeBare(r);
    assert Serialize(r, []) == Terminated([StatusLine(r)], "\r\n") + "\r\n" + ("\r\n" + r.body);
    ReadHeadOfTerminated([StatusLine(r)], "\r\n" + r.body);
  }

  /** For instance, a 404 reaches the client with a two-byte body. */
  lemma NotFoundReadsExtraBody(r: HttpResponse)
    requires r == NotFound()
    ensures ReadHead(Serialize(r, [])) == Some((["HTTP/1.1 404 Not Found"], "\r\n"))
    ensures ReadHead(SerializeIntended(r, [])) == Some((["HTTP/1.1 404 Not Found"], ""))
  {
    NotFoundWire();
    SerializeBareBodyGainsCrlf(r);
    SerializeIntendedReadBack(r, []);
    assert "\r\n" + r.body == "\r\n";
    assert [StatusLine(r)] + FieldLines(r.headers, []) == [StatusLine(r)];
  }
}
