/**
 * The request-text parser of src/request.rs: the request-line (section 3
 * of RFC 9112) is split into method, target path and version, and every
 * later line is read as a field line (section 5 of RFC 9112) into a map.
 */
module Request {
  import opened Wrappers
  import opened Text

  /** The four methods the server knows. */
  datatype Method = Get | Post | Put | Delete

  /** The request-line token of each method. */
  function MethodToken(m: Method): string {
    match m
    case Get => "GET"
    case Post => "POST"
    case Put => "PUT"
    case Delete => "DELETE"
  }

  /**
   * The method a request-line token names: exactly the four upper-case
   * tokens, compared case-sensitively; any other token names none.
   */
  function MethodFromToken(t: string): (r: Option<Method>)
    ensures r.Some? <==> t in {"GET", "POST", "PUT", "DELETE"}
    ensures r.Some? ==> MethodToken(r.value) == t
  {
    match t
    case "GET" => Some(Get)
    case "POST" => Some(Post)
    case "PUT" => Some(Put)
    case "DELETE" => Some(Delete)
    case _ => None
  }

  /** Every method's own token is read back as that method. */
  lemma MethodTokenRoundTrip(m: Method)
    ensures MethodFromToken(MethodToken(m)) == Some(m)
  {
  }

  /** Every method token is a non-empty run of non-whitespace characters. */
  lemma MethodTokenIsWord(m: Method)
    ensures MethodToken(m) != [] && NoWhitespace(MethodToken(m))
  {
  }

  /**
   * A parsed request. `body` is not filled in by the parser; handlers of
   * uploads receive it from their caller.
   */
  datatype HttpRequest = HttpRequest(
    httpMethod: Method,
    path: string,
    version: string,
    headers: map<string, string>,
    body: Option<string>)

  /* ------------------------------------------------------- field lines */

  /** `parse_header_line`: a line without a colon gives no field. */
  function ParseHeaderLine(line: string): (r: Option<(string, string)>)
    ensures r.None? <==> ':' !in line
  {
    match FindChar(line, ':')
    case None => None
    case Some(i) => Some((Trim(line[..i]), Trim(line[i + 1..])))
  }

  /**
   * A line with a colon is split at its FIRST colon, so the value keeps any
   * later colons, and both halves are trimmed.
   */
  lemma ParseHeaderLineSplitsAtFirstColon(line: string, i: nat)
    requires i < |line| && line[i] == ':' && ':' !in line[..i]
    ensures ParseHeaderLine(line) == Some((Trim(line[..i]), Trim(line[i + 1..])))
  {
    FindCharAt(line, ':', i);
  }

  /** Text with no whitespace at either end. */
  predicate Trimmed(s: string) {
    s == [] || (!IsWhitespace(s[0]) && !IsWhitespace(s[|s| - 1]))
  }

  /**
   * A line written as "name: value", with a colon-free name, reads back as
   * that name and value, whatever colons the value holds.
   */
  lemma ParseFieldLine(name: string, value: string)
    requires ':' !in name && Trimmed(name) && Trimmed(value)
    ensures ParseHeaderLine(name + ": " + value) == Some((name, value))
  {
    var line := name + ": " + value;
    assert line[..|name|] == name;
    ParseHeaderLineSplitsAtFirstColon(line, |name|);
    assert line[|name| + 1..] == [' '] + value;
    TrimLeadingWhitespace(' ', value);
    TrimUnchanged(value);
    TrimUnchanged(name);
  }

  /** The line names field `name`. */
  predicate Names(line: string, name: string) {
    ParseHeaderLine(line).Some? && ParseHeaderLine(line).value.0 == name
  }

  /**
   * The map built from parsed field lines read in order: an absent field
   * adds nothing and a later field overwrites an earlier one with the same
   * name.
   */
  function FieldMap(fields: seq<Option<(string, string)>>): map<string, string> {
    if fields == [] then map[]
    else
      var earlier := FieldMap(fields[..|fields| - 1]);
      match fields[|fields| - 1]
      case None => earlier
      case Some((name, value)) => earlier[name := value]
  }

  /** What `parse_header_line` gives for each line. */
  function ParsedLines(lines: seq<string>): (r: seq<Option<(string, string)>>)
    ensures |r| == |lines|
  {
    seq(|lines|, i requires 0 <= i < |lines| => ParseHeaderLine(lines[i]))
  }

  /** The map `parse_headers` builds from `lines`. */
  function HeaderMap(lines: seq<string>): (headers: map<string, string>)
    ensures |headers| <= |lines|
  {
    FieldMapSize(ParsedLines(lines));
    FieldMap(ParsedLines(lines))
  }

  /** Reading one more line updates the map by that line's field. */
  lemma HeaderMapAppend(lines: seq<string>, line: string)
    ensures HeaderMap(lines + [line]) ==
      match ParseHeaderLine(line)
      case None => HeaderMap(lines)
      case Some((name, value)) => HeaderMap(lines)[name := value]
  {
    var fields := ParsedLines(lines + [line]);
    assert fields[..|lines|] == ParsedLines(lines);
    assert fields[|lines|] == ParseHeaderLine(line);
  }

  /** `parse_headers`: the loop that fills the map line by line. */
  method ParseHeaders(headers: seq<string>) returns (headerMap: map<string, string>)
    ensures headerMap == HeaderMap(headers)
  {
    headerMap := map[];
    for i := 0 to |headers|
      invariant headerMap == HeaderMap(headers[..i])
    {
      assert headers[..i + 1] == headers[..i] + [headers[i]];
      HeaderMapAppend(headers[..i], headers[i]);
      match ParseHeaderLine(headers[i]) {
        case Some((key, value)) =>
          headerMap := headerMap[key := value];
        case None =>
      }
    }
    assert headers[..|headers|] == headers;
  }

  /** A line without a colon adds nothing. */
  lemma HeaderMapSkips(lines: seq<string>, line: string)
    requires ':' !in line
    ensures HeaderMap(lines + [line]) == HeaderMap(lines)
  {
    HeaderMapAppend(lines, line);
  }

  /** A later field line overwrites an earlier one with the same name. */
  lemma HeaderMapOverwrites(lines: seq<string>, line: string, name: string, value: string)
    requires ParseHeaderLine(line) == Some((name, value))
    ensures HeaderMap(lines + [line]) == HeaderMap(lines)[name := value]
  {
    HeaderMapAppend(lines, line);
  }

  /** The map never has more entries than there are fields. */
  lemma {:induction false} FieldMapSize(fields: seq<Option<(string, string)>>)
    ensures |FieldMap(fields)| <= |fields|
    decreases |fields|
  {
    if fields != [] {
      var earlier := fields[..|fields| - 1];
      FieldMapSize(earlier);
      match fields[|fields| - 1]
      case None =>
      case Some((name, value)) =>
        assert FieldMap(fields).Keys <= FieldMap(earlier).Keys + {name};
        assert |FieldMap(earlier).Keys + {name}| <= |FieldMap(earlier).Keys| + 1;
    }
  }

  /** The field at `i` has name `name`. */
  predicate FieldNamed(fields: seq<Option<(string, string)>>, i: int, name: string)
    requires 0 <= i < |fields|
  {
    fields[i].Some? && fields[i].value.0 == name
  }

  /**
   * A name is in the map exactly when some field has it, and its value is
   * the one given by the LAST field with that name.
   */
  lemma {:induction false} FieldMapLastWins(fields: seq<Option<(string, string)>>, name: string)
    ensures name in FieldMap(fields) <==> exists i :: 0 <= i < |fields| && FieldNamed(fields, i, name)
    ensures name in FieldMap(fields) ==>
      exists i :: 0 <= i < |fields|
                  && fields[i] == Some((name, FieldMap(fields)[name]))
                  && forall j :: i < j < |fields| ==> !FieldNamed(fields, j, name)
    decreases |fields|
  {
    if fields != [] {
      var n := |fields| - 1;
      var earlier := fields[..n];
      var m := FieldMap(fields);
      FieldMapLastWins(earlier, name);
      assert forall i :: 0 <= i < n ==> earlier[i] == fields[i];
      if FieldNamed(fields, n, name) {
        assert fields[n] == Some((name, m[name]));
      } else {
        assert name in m <==> name in FieldMap(earlier);
        if name in m {
          var i :| 0 <= i < n && earlier[i] == Some((name, FieldMap(earlier)[name]))
                   && forall j :: i < j < n ==> !FieldNamed(earlier, j, name);
          assert forall j :: i < j < |fields| ==> !FieldNamed(fields, j, name) by {
            forall j | i < j < |fields|
              ensures !FieldNamed(fields, j, name)
            {
              if j < n {
                assert FieldNamed(earlier, j, name) == FieldNamed(fields, j, name);
              }
            }
          }
          assert fields[i] == Some((name, m[name]));
          assert FieldNamed(fields, i, name);
        } else {
          forall i | 0 <= i < |fields|
            ensures !FieldNamed(fields, i, name)
          {
            if i < n {
              assert FieldNamed(earlier, i, name) == FieldNamed(fields, i, name);
            }
          }
        }
      }
    }
  }

  /**
   * A name is in the map exactly when some line names it, and its value is
   * the one given by the LAST line that names it.
   */
  lemma HeaderMapLastWins(lines: seq<string>, name: string)
    ensures name in HeaderMap(lines) <==> exists i :: 0 <= i < |lines| && Names(lines[i], name)
    ensures name in HeaderMap(lines) ==>
      exists i :: 0 <= i < |lines|
                  && ParseHeaderLine(lines[i]) == Some((name, HeaderMap(lines)[name]))
                  && forall j :: i < j < |lines| ==> !Names(lines[j], name)
  {
    var fields := ParsedLines(lines);
    FieldMapLastWins(fields, name);
    assert forall i :: 0 <= i < |lines| ==> (Names(lines[i], name) <==> FieldNamed(fields, i, name));
  }

  /** Lines without a colon appended after the others change nothing. */
  lemma {:induction false} HeaderMapIgnoresColonFree(lines: seq<string>, more: seq<string>)
    requires forall i :: 0 <= i < |more| ==> ':' !in more[i]
    ensures HeaderMap(lines + more) == HeaderMap(lines)
    decreases |more|
  {
    if more != [] {
      var last := |more| - 1;
      assert lines + more == (lines + more[..last]) + [more[last]];
      HeaderMapSkips(lines + more[..last], more[last]);
      HeaderMapIgnoresColonFree(lines, more[..last]);
    } else {
      assert lines + more == lines;
    }
  }

  /* ---------------------------------------------------------- the parse */

  /**
   * What `parse` indexes without checking: there is a first line, it has a
   * first token, and after a known method token it has two more.
   */
  predicate StartLineIndexable(request: string) {
    var lines := Lines(request);
    && |lines| >= 1
    && var tokens := Words(lines[0]);
    && |tokens| >= 1
    && (MethodFromToken(tokens[0]).Some? ==> |tokens| >= 3)
  }

  /**
   * `HTTPRequest::parse`: `None` exactly when the first token is not one of
   * the four methods; otherwise the method named by that token, the second
   * and third tokens of the first line as path and version, and the field
   * map of EVERY later line (the blank separator and any body lines too).
   */
  function Parse(request: string): (r: Option<HttpRequest>)
    requires StartLineIndexable(request)
    ensures var lines := Lines(request);
            var tokens := Words(lines[0]);
            && (r.Some? <==> tokens[0] in {"GET", "POST", "PUT", "DELETE"})
            && (r.Some? ==>
                  && MethodToken(r.value.httpMethod) == tokens[0]
                  && r.value.path == tokens[1]
                  && r.value.version == tokens[2]
                  && r.value.headers == HeaderMap(lines[1..])
                  && r.value.body == None)
  {
    var lines := Lines(request);
    var startLine := Words(lines[0]);
    match MethodFromToken(startLine[0])
    case None => None
    case Some(m) =>
      Some(HttpRequest(m, startLine[1], startLine[2], HeaderMap(lines[1..]), None))
  }

  /* ------------------------------------------- the text of a request */

  /** A request-line: method, target and version separated by single spaces. */
  function RequestLine(m: Method, path: string, version: string): string {
    MethodToken(m) + " " + path + " " + version
  }

  /**
   * The text of a request: the request-line, each field line, the empty
   * line, then the body, lines ended by "\r\n".
   */
  function RequestText(m: Method, path: string, version: string, fields: seq<string>, body: string): string {
    RequestLine(m, path, version) + "\r\n" + (Terminated(fields, "\r\n") + ("\r\n" + body))
  }

  /** Lines each ended by "\r\n" come back as those lines. */
  lemma {:induction false} LinesOfTerminated(fields: seq<string>, rest: string)
    requires forall i :: 0 <= i < |fields| ==> '\n' !in fields[i]
    ensures Lines(Terminated(fields, "\r\n") + rest) == fields + Lines(rest)
    decreases |fields|
  {
    if fields != [] {
      var tail := Terminated(fields[1..], "\r\n") + rest;
      calc {
        Lines(Terminated(fields, "\r\n") + rest);
        { assert Terminated(fields, "\r\n") + rest == fields[0] + "\r\n" + tail; }
        Lines(fields[0] + "\r\n" + tail);
        { LinesCrlf(fields[0], tail); }
        [fields[0]] + Lines(tail);
        { LinesOfTerminated(fields[1..], rest); }
        [fields[0]] + (fields[1..] + Lines(rest));
        { assert fields == [fields[0]] + fields[1..]; }
        fields + Lines(rest);
      }
    } else {
      assert Terminated(fields, "\r\n") + rest == rest;
      assert fields + Lines(rest) == Lines(rest);
    }
  }

  /** The lines of a request text: request-line, fields, blank, body lines. */
  lemma LinesOfRequestText(m: Method, path: string, version: string, fields: seq<string>, body: string)
    requires NoWhitespace(path) && NoWhitespace(version)
    requires forall i :: 0 <= i < |fields| ==> '\n' !in fields[i]
    ensures Lines(RequestText(m, path, version, fields, body))
            == [RequestLine(m, path, version)] + (fields + ([""] + Lines(body)))
  {
    var line := RequestLine(m, path, version);
    var rest := Terminated(fields, "\r\n") + ("\r\n" + body);
    assert '\n' !in line by {
      MethodTokenIsWord(m);
      assert IsWhitespace('\n');
      assert forall i :: 0 <= i < |line| ==> line[i] != '\n';
    }
    calc {
      Lines(RequestText(m, path, version, fields, body));
      Lines(line + "\r\n" + rest);
      { LinesCrlf(line, rest); }
      [line] + Lines(rest);
      { LinesOfTerminated(fields, "\r\n" + body); }
      [line] + (fields + Lines("\r\n" + body));
      { assert [] + "\r\n" + body == "\r\n" + body;
        LinesCrlf([], body); }
      [line] + (fields + ([""] + Lines(body)));
    }
  }

  /** Dropping the head of `[x] + (a + (b + c))` leaves `a + b + c`. */
  lemma DropHead<T>(x: T, a: seq<T>, b: seq<T>, c: seq<T>)
    ensures ([x] + (a + (b + c)))[1..] == a + b + c
  {
  }

  /**
   * Parsing a request text gives back its method, path and version, with
   * the field map of its field lines followed by the blank line and the
   * body's lines, and no body.
   */
  lemma ParseRequestText(m: Method, path: string, version: string, fields: seq<string>, body: string)
    requires path != [] && NoWhitespace(path)
    requires version != [] && NoWhitespace(version)
    requires forall i :: 0 <= i < |fields| ==> '\n' !in fields[i]
    ensures StartLineIndexable(RequestText(m, path, version, fields, body))
    ensures Parse(RequestText(m, path, version, fields, body))
            == Some(HttpRequest(m, path, version, HeaderMap(fields + [""] + Lines(body)), None))
  {
    var text := RequestText(m, path, version, fields, body);
    LinesOfRequestText(m, path, version, fields, body);
    var lines := Lines(text);
    assert lines[0] == RequestLine(m, path, version);
    DropHead(RequestLine(m, path, version), fields, [""], Lines(body));
    MethodTokenIsWord(m);
    WordsOfThree(MethodToken(m), path, version);
    MethodTokenRoundTrip(m);
  }

  /**
   * When the body has no colon in it, the blank line and the body add
   * nothing to the field map.
   */
  lemma ParseRequestTextColonFreeBody(m: Method, path: string, version: string, fields: seq<string>, body: string)
    requires path != [] && NoWhitespace(path)
    requires version != [] && NoWhitespace(version)
    requires forall i :: 0 <= i < |fields| ==> '\n' !in fields[i]
    requires ':' !in body
    ensures StartLineIndexable(RequestText(m, path, version, fields, body))
    ensures Parse(RequestText(m, path, version, fields, body))
            == Some(HttpRequest(m, path, version, HeaderMap(fields), None))
  {
    ParseRequestText(m, path, version, fields, body);
    assert HeaderMap(fields + [""] + Lines(body)) == HeaderMap(fields) by {
      HeaderMapIgnoresBody(fields, body);
    }
  }

  /** The blank line and the lines of a colon-free body add no field. */
  lemma HeaderMapIgnoresBody(fields: seq<string>, body: string)
    requires ':' !in body
    ensures HeaderMap(fields + [""] + Lines(body)) == HeaderMap(fields)
  {
    var more := [""] + Lines(body);
    assert forall i :: 0 <= i < |more| ==> ':' !in more[i] by {
      LinesHaveCharsOf(body, ':');
    }
    assert fields + [""] + Lines(body) == fields + more;
    HeaderMapIgnoresColonFree(fields, more);
  }

  /** A character absent from the text is absent from each of its lines. */
  lemma {:induction false} LinesHaveCharsOf(s: string, c: char)
    requires c !in s
    ensures forall i :: 0 <= i < |Lines(s)| ==> c !in Lines(s)[i]
    decreases |s|
  {
    if s != [] {
      match FindChar(s, '\n')
      case None =>
      case Some(i) =>
        assert forall k :: 0 <= k < i ==> s[..i][k] == s[k];
        assert c !in s[..i];
        assert c !in StripCr(s[..i]) by {
          assert StripCr(s[..i]) == s[..i] || StripCr(s[..i]) == s[..i][..i - 1];
        }
        assert c !in s[i + 1..];
        LinesHaveCharsOf(s[i + 1..], c);
    }
  }

  /* ------------------------------------------------ the parser's examples */

  /** A line without a colon, the empty line included, is no field. */
  lemma ParseHeaderLineRejects()
    ensures ParseHeaderLine("") == None
    ensures ParseHeaderLine("invalid") == None
  {
  }
}
