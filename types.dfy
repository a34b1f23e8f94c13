/** The types of the types.go snapshot (app/types.go): headers, a start line, a request made of
    them, a status line and a response whose headers are kept in insertion order. Like the
    repository's snapshots, these definitions are kept apart from Legacy's look-alikes. */
module Types {
  import opened Wrappers
  import opened GoStrings
  import opened Framing
  import SR = ServerResponse

  const HttpVersion11: string := "HTTP/1.1"
  const HttpMethodGet: string := "GET"
  const HttpMethodPost: string := "POST"

  const HttpStatusOK: string := "200"
  const HttpStatusCreated: string := "201"
  const HttpStatusNotFound: string := "404"
  const HttpStatusMethodNotAllowed: string := "405"
  const HttpStatusInternalServerError: string := "500"

  /** The statuses newStatusLine knows; any other is a fatal error. */
  const StatusCodes: set<string> := {
    HttpStatusOK, HttpStatusCreated, HttpStatusNotFound, HttpStatusMethodNotAllowed, HttpStatusInternalServerError
  }

  const HttpHeaderAllow: string := "Allow"
  const HttpHeaderContentType: string := "Content-Type"
  const HttpHeaderContentLength: string := "Content-Length"
  const HttpHeaderUserAgent: string := "User-Agent"

  const HeaderNotFound: string := "header not found"

  datatype HttpHeader = HttpHeader(name: string, value: string)

  /** httpHeader.isValid: the name is one of four; the value is not checked. */
  predicate HeaderIsValid(h: HttpHeader)
  {
    h.name == HttpHeaderAllow || h.name == HttpHeaderContentLength ||
    h.name == HttpHeaderContentType || h.name == HttpHeaderUserAgent
  }

  function HeaderLine(h: HttpHeader): string
  {
    h.name + ": " + h.value
  }

  /** httpHeader.ToString. */
  function HeaderToString(h: HttpHeader): string
  {
    HeaderLine(h) + CRLF
  }

  datatype StartLine = StartLine(httpMethod: string, requestTarget: string, httpVersion: string)

  /** startLine.isValid: the version first, then the method; the target is not checked. */
  predicate StartLineIsValid(s: StartLine)
  {
    s.httpVersion == HttpVersion11 && (s.httpMethod == HttpMethodGet || s.httpMethod == HttpMethodPost)
  }

  /** startLine.ToString without its CRLF. */
  function StartLineText(s: StartLine): string
  {
    s.httpMethod + " " + s.requestTarget + " " + s.httpVersion
  }

  datatype HttpRequest = HttpRequest(startLine: StartLine, headers: seq<HttpHeader>, body: string)

  predicate HeadersValid(hs: seq<HttpHeader>)
  {
    forall i :: 0 <= i < |hs| ==> HeaderIsValid(hs[i])
  }

  predicate RequestIsValid(r: HttpRequest)
  {
    StartLineIsValid(r.startLine) && HeadersValid(r.headers)
  }

  /** httpRequest.isValid: the start line, then each header in turn. */
  method IsValid(r: HttpRequest) returns (ok: bool)
    ensures ok <==> RequestIsValid(r)
  {
    if !StartLineIsValid(r.startLine) {
      return false;
    }
    for i := 0 to |r.headers|
      invariant forall j :: 0 <= j < i ==> HeaderIsValid(r.headers[j])
    {
      if !HeaderIsValid(r.headers[i]) {
        return false;
      }
    }
    return true;
  }

  function HeaderLines(hs: seq<HttpHeader>): (ls: seq<string>)
    ensures |ls| == |hs| && forall i :: 0 <= i < |hs| ==> ls[i] == HeaderLine(hs[i])
  {
    seq(|hs|, i requires 0 <= i < |hs| => HeaderLine(hs[i]))
  }

  /** The text httpRequest.ToString produces. */
  function RequestText(r: HttpRequest): string
  {
    StartLineText(r.startLine) + CRLF + Lines(HeaderLines(r.headers)) + CRLF + r.body
  }

  /** The head accumulated from a first line and header lines. */
  method AppendHeaders(first: string, hs: seq<HttpHeader>) returns (head: string)
    ensures head == first + Lines(HeaderLines(hs))
  {
    head := first;
    for i := 0 to |hs|
      invariant head == first + Lines(HeaderLines(hs[..i]))
    {
      assert HeaderLines(hs[..i + 1])[..i] == HeaderLines(hs[..i]);
      head := head + HeaderToString(hs[i]);
    }
    assert hs[..|hs|] == hs;
  }

  method RequestToString(r: HttpRequest) returns (s: string)
    ensures s == RequestText(r)
  {
    var head := AppendHeaders(StartLineText(r.startLine) + CRLF, r.headers);
    s := head + CRLF + r.body;
  }

  /** httpRequest.Header: the value of the first header with that name. */
  method Header(r: HttpRequest, name: string) returns (res: Result<string, string>)
    ensures res.Failure? <==> forall i :: 0 <= i < |r.headers| ==> r.headers[i].name != name
    ensures res.Failure? ==> res.error == HeaderNotFound
    ensures res.Success? ==>
      exists i :: 0 <= i < |r.headers| && r.headers[i].name == name && r.headers[i].value == res.value &&
                  forall j :: 0 <= j < i ==> r.headers[j].name != name
  {
    for i := 0 to |r.headers|
      invariant forall j :: 0 <= j < i ==> r.headers[j].name != name
    {
      if r.headers[i].name == name {
        return Success(r.headers[i].value);
      }
    }
    return Failure(HeaderNotFound);
  }

  datatype StatusLine = StatusLine(httpVersion: string, httpStatusCode: string, httpStatusText: string)

  /** newStatusLine; any status outside the five is a fatal error. */
  function NewStatusLine(status: string): (sl: StatusLine)
    requires status in StatusCodes
    ensures sl.httpVersion == HttpVersion11 && sl.httpStatusCode == status
    ensures sl.httpStatusText == SR.StatusText(status)
  {
    if status == HttpStatusCreated then StatusLine(HttpVersion11, HttpStatusCreated, "Created")
    else if status == HttpStatusMethodNotAllowed then StatusLine(HttpVersion11, HttpStatusMethodNotAllowed, "Method Not Allowed")
    else if status == HttpStatusInternalServerError then StatusLine(HttpVersion11, HttpStatusInternalServerError, "Internal Server Error")
    else if status == HttpStatusNotFound then StatusLine(HttpVersion11, HttpStatusNotFound, "Not Found")
    else StatusLine(HttpVersion11, HttpStatusOK, "OK")
  }

  /** statusLine.ToString without its CRLF. */
  function StatusLineText(s: StatusLine): string
  {
    s.httpVersion + " " + s.httpStatusCode + " " + s.httpStatusText
  }

  /** The text httpResponse.ToString produces. */
  function ResponseText(sl: StatusLine, hs: seq<HttpHeader>, body: string): string
  {
    StatusLineText(sl) + CRLF + Lines(HeaderLines(hs)) + CRLF + body
  }

  class HttpResponse {
    var statusLine: StatusLine
    var headers: seq<HttpHeader>
    var body: string

    /** The zero value `httpResponse{}`. */
    constructor ()
      ensures statusLine == StatusLine("", "", "") && headers == [] && body == ""
    {
      statusLine, headers, body := StatusLine("", "", ""), [], "";
    }

    /** setHeader appends: earlier headers, including one of the same name, stay. */
    method SetHeader(header: string, value: string)
      modifies this
      ensures headers == old(headers) + [HttpHeader(header, value)]
      ensures statusLine == old(statusLine) && body == old(body)
    {
      headers := headers + [HttpHeader(header, value)];
    }

    method SetStatus(status: string)
      requires status in StatusCodes
      modifies this
      ensures statusLine == NewStatusLine(status) && headers == old(headers) && body == old(body)
    {
      statusLine := NewStatusLine(status);
    }

    method SetBody(b: string)
      modifies this
      ensures body == b && statusLine == old(statusLine) && headers == old(headers)
    {
      body := b;
    }

    method ToString() returns (s: string)
      ensures s == ResponseText(statusLine, headers, body)
    {
      var head := AppendHeaders(StatusLineText(statusLine) + CRLF, headers);
      s := head + CRLF + body;
    }
  }

  /** A reader of a response finds the body after the first empty line and the headers, in the
      order they were set, as the lines after the status line. */
  lemma ResponseReadBack(status: string, hs: seq<HttpHeader>, body: string)
    requires status in StatusCodes
    requires forall i :: 0 <= i < |hs| ==> PlainLine(hs[i].name) && '\r' !in hs[i].value && '\n' !in hs[i].value
    ensures var sl := StatusLineText(NewStatusLine(status));
      var c := Cut(ResponseText(NewStatusLine(status), hs, body), BlankLine);
      c.found && c.after == body && Split(c.before, CRLF) == [sl] + HeaderLines(hs)
  {
    var sl := StatusLineText(NewStatusLine(status));
    var ls := HeaderLines(hs);
    assert PlainLine(sl) by {
      SR.StatusLinePlain(status);
      assert sl == SR.StatusLine(status);
    }
    assert PlainLines([sl] + ls) by {
      forall i | 0 <= i < |ls| ensures PlainLine(ls[i]) {
        assert ls[i] == hs[i].name + ": " + hs[i].value;
      }
    }
    ReadMessage(sl, ls, body);
  }
}
