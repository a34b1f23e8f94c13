/** The oldest snapshot (app/server.go): request parsing with per-field validators, request and
    response composition, four fixed handlers and a hard-coded routing switch. It shares no
    definitions with the later snapshots, as in the repository. */
module Legacy {
  import opened Wrappers
  import opened GoStrings
  import opened Framing

  const HttpMethodGet: string := "GET"
  const HttpMethodPost: string := "POST"
  const HttpVersion11: string := "HTTP/1.1"
  const HttpStatusOK: string := "200"
  const HttpStatusNotFound: string := "404"
  const HttpStatusTextOK: string := "OK"
  const HttpStatusTextNotFound: string := "Not Found"
  const HttpHeaderContentType: string := "Content-Type"
  const HttpHeaderContentLength: string := "Content-Length"
  const HttpHeaderUserAgent: string := "User-Agent"

  const InvalidHeader: string := "invalid header"
  const InvalidMethod: string := "invalid HTTP method"
  const InvalidVersion: string := "invalid HTTP protocol version"
  const Malformed: string := "malformed request"

  datatype StartLine = StartLine(httpMethod: string, requestTarget: string, httpVersion: string)
  datatype StatusLine = StatusLine(httpVersion: string, httpStatusCode: string, httpStatusText: string)
  datatype HttpHeader = HttpHeader(name: string, value: string)
  datatype HttpRequest = HttpRequest(startLine: StartLine, headers: seq<HttpHeader>, body: string)
  datatype HttpResponse = HttpResponse(statusLine: StatusLine, headers: seq<HttpHeader>, body: string)

  /** The three names parseHeader accepts. */
  predicate Accepted(name: string)
  {
    name == HttpHeaderContentLength || name == HttpHeaderContentType || name == HttpHeaderUserAgent
  }

  lemma AcceptedPlain(name: string)
    requires Accepted(name)
    ensures PlainLine(name) && ':' !in name
  {
  }

  function HeaderLine(h: HttpHeader): string
  {
    h.name + ": " + h.value
  }

  /** parseHeader: the name before the first ": " must be one of the three. */
  function ParseHeader(line: string): (r: Result<HttpHeader, string>)
    ensures r.Failure? ==> r.error == InvalidHeader
    ensures r.Success? <==> Cut(line, ": ").found && Accepted(Cut(line, ": ").before)
    ensures r.Success? ==> Accepted(r.value.name) && HeaderLine(r.value) == line
  {
    var c := Cut(line, ": ");
    if !c.found then Failure(InvalidHeader)
    else if Accepted(c.before) then Success(HttpHeader(c.before, c.after))
    else Failure(InvalidHeader)
  }

  /** Allow, known to the later snapshots, is not accepted here. */
  lemma AllowRejected(value: string)
    ensures ParseHeader("Allow" + ": " + value) == Failure(InvalidHeader)
  {
    HeaderLineCut("Allow", value);
  }

  lemma ParseHeaderLine(h: HttpHeader)
    requires Accepted(h.name)
    ensures ParseHeader(HeaderLine(h)) == Success(h)
  {
    AcceptedPlain(h.name);
    HeaderLineCut(h.name, h.value);
  }

  function ValidateHttpMethod(m: string): (r: Result<string, string>)
    ensures r.Success? <==> m == HttpMethodGet || m == HttpMethodPost
    ensures r.Success? ==> r.value == m
    ensures r.Failure? ==> r.error == InvalidMethod
  {
    if m == HttpMethodGet || m == HttpMethodPost then Success(m) else Failure(InvalidMethod)
  }

  function ValidateHttpVersion(v: string): (r: Result<string, string>)
    ensures r.Success? <==> v == HttpVersion11
    ensures r.Success? ==> r.value == HttpVersion11
    ensures r.Failure? ==> r.error == InvalidVersion
  {
    if v == HttpVersion11 then Success(HttpVersion11) else Failure(InvalidVersion)
  }

  /** validateHttpTarget: the pattern `/(echo/\w+)?` is not anchored and its group is optional, so
      it matches wherever the target has a '/'. */
  predicate ValidateHttpTarget(target: string)
  {
    exists i :: 0 <= i < |target| && target[i] == '/'
  }

  /** The headers kept from some header lines: those parseHeader accepts, in order. */
  function Kept(lines: seq<string>): (hs: seq<HttpHeader>)
    ensures |hs| <= |lines| && forall i :: 0 <= i < |hs| ==> Accepted(hs[i].name)
  {
    if lines == [] then []
    else
      var init := Kept(lines[..|lines| - 1]);
      match ParseHeader(lines[|lines| - 1])
      case Success(h) => init + [h]
      case Failure(_) => init
  }

  /** The checks of parseRequest once the start line is split: word count, method, then version.
      The target check only prints, so it takes no part. */
  function Verdict(words: seq<string>, headers: seq<HttpHeader>, body: string): Result<HttpRequest, string>
  {
    if |words| != 3 then Failure(Malformed)
    else
      match ValidateHttpMethod(words[0])
      case Failure(e) => Failure(e)
      case Success(m) =>
        match ValidateHttpVersion(words[2])
        case Failure(e) => Failure(e)
        case Success(v) => Success(HttpRequest(StartLine(m, words[1], v), headers, body))
  }

  /** parseRequest, as a function of the text. */
  function Parse(r: string): (res: Result<HttpRequest, string>)
    ensures res.Success? ==>
      res.value.startLine.httpVersion == HttpVersion11 &&
      (res.value.startLine.httpMethod == HttpMethodGet || res.value.startLine.httpMethod == HttpMethodPost)
    ensures res.Failure? ==> res.error in {Malformed, InvalidMethod, InvalidVersion}
  {
    var c := Cut(r, BlankLine);
    var headlines := Split(c.before, CRLF);
    var headers := if |headlines| > 1 then Kept(headlines[1..]) else [];
    Verdict(Split(headlines[0], " "), headers, c.after)
  }

  method ParseRequest(r: string) returns (res: Result<HttpRequest, string>)
    ensures res == Parse(r)
  {
    var c := Cut(r, BlankLine);
    var body := c.after;
    var headlines := Split(c.before, CRLF);
    var headers: seq<HttpHeader> := [];
    if |headlines| > 1 {
      var lines := headlines[1..];
      for i := 0 to |lines|
        invariant headers == Kept(lines[..i])
      {
        TakeSnoc(lines, i);
        KeptSnoc(lines[..i], lines[i]);
        var h := ParseHeader(lines[i]);
        if h.Failure? {
          continue;
        }
        headers := headers + [h.value];
      }
      assert lines[..|lines|] == lines;
    }
    var firstLine := Split(headlines[0], " ");
    assert Parse(r) == Verdict(firstLine, headers, body);
    if |firstLine| != 3 {
      return Failure(Malformed);
    }
    var method_, target, protocol := firstLine[0], firstLine[1], firstLine[2];
    var m := ValidateHttpMethod(method_);
    if m.Failure? {
      return Failure(m.error);
    }
    var t := ValidateHttpTarget(target);
    var v := ValidateHttpVersion(protocol);
    if v.Failure? {
      return Failure(v.error);
    }
    return Success(HttpRequest(StartLine(m.value, target, v.value), headers, body));
  }

  /** The method is checked before the version: a request wrong in both is reported for its method. */
  lemma MethodBeforeVersion(words: seq<string>, headers: seq<HttpHeader>, body: string)
    requires |words| == 3 && ValidateHttpMethod(words[0]).Failure?
    ensures Verdict(words, headers, body) == Failure(InvalidMethod)
  {
  }

  /** The target check never rejects: a request is accepted with or without a '/' in its target. */
  lemma TargetNeverRejects(words: seq<string>, headers: seq<HttpHeader>, body: string, other: string)
    requires |words| == 3
    ensures Verdict(words, headers, body).Success? <==> Verdict(words[1 := other], headers, body).Success?
  {
  }

  /** Kept works line by line: lines of a later part come after those of an earlier one. */
  lemma {:induction false} KeptAppend(a: seq<string>, b: seq<string>)
    ensures Kept(a + b) == Kept(a) + Kept(b)
    decreases |b|
  {
    if b != [] {
      var b' := b[..|b| - 1];
      assert (a + b)[..|a + b| - 1] == a + b';
      KeptAppend(a, b');
    } else {
      assert a + b == a;
    }
  }

  /** A line parseHeader refuses is skipped: the headers kept around it are as if it were absent. */
  lemma SkipsRejected(a: seq<string>, line: string, b: seq<string>)
    requires ParseHeader(line).Failure?
    ensures Kept(a + [line] + b) == Kept(a + b)
  {
    KeptAppend(a + [line], b);
    KeptAppend(a, [line]);
    KeptAppend(a, b);
    assert Kept([line]) == Kept([]) by { assert [line][..0] == []; }
  }

  /** An accepted line contributes its header, in its place. */
  lemma KeepsAccepted(a: seq<string>, line: string, b: seq<string>)
    requires ParseHeader(line).Success?
    ensures Kept(a + [line] + b) == Kept(a) + [ParseHeader(line).value] + Kept(b)
  {
    KeptAppend(a + [line], b);
    KeptAppend(a, [line]);
    assert Kept([line]) == [ParseHeader(line).value] by { assert [line][..0] == []; }
  }

  /** Kept on one more line: the line's header is appended when parseHeader accepts it. */
  lemma KeptSnoc(lines: seq<string>, l: string)
    ensures Kept(lines + [l]) == if ParseHeader(l).Success? then Kept(lines) + [ParseHeader(l).value] else Kept(lines)
  {
    assert (lines + [l])[..|lines|] == lines;
  }

  lemma HeaderLinesSnoc(hs: seq<HttpHeader>)
    requires hs != []
    ensures HeaderLines(hs) == HeaderLines(hs[..|hs| - 1]) + [HeaderLine(hs[|hs| - 1])]
  {
  }

  /** The lines of accepted headers give those headers back, in order. */
  lemma {:induction false} KeptLines(hs: seq<HttpHeader>)
    requires forall i :: 0 <= i < |hs| ==> Accepted(hs[i].name)
    ensures Kept(HeaderLines(hs)) == hs
    decreases |hs|
  {
    if hs != [] {
      var init, last := hs[..|hs| - 1], hs[|hs| - 1];
      assert hs == init + [last];
      HeaderLinesSnoc(hs);
      KeptLines(init);
      ParseHeaderLine(last);
      KeptSnoc(HeaderLines(init), HeaderLine(last));
    }
  }


  /** A start line that is not three words is "malformed request", whatever the header lines. */
  lemma MalformedStartLine(r: string)
    requires |Split(Split(Cut(r, BlankLine).before, CRLF)[0], " ")| != 3
    ensures Parse(r) == Failure(Malformed)
  {
  }

  /** For a message laid out as start line, header lines, empty line and body, the headers are the
      kept header lines and the body is what follows the empty line. */
  lemma ParseLaidOut(start: string, lines: seq<string>, body: string)
    requires PlainLines([start] + lines)
    ensures Parse(start + CRLF + Lines(lines) + CRLF + body) == Verdict(Split(start, " "), Kept(lines), body)
  {
    var r := start + CRLF + Lines(lines) + CRLF + body;
    ReadMessage(start, lines, body);
    var headlines := Split(Cut(r, BlankLine).before, CRLF);
    assert headlines == [start] + lines;
    assert headlines[0] == start && headlines[1..] == lines;
    if lines == [] {
      assert Kept(lines) == [];
    }
  }

  /** composeRequest: the start line and an empty line; headers and body are not written. */
  function ComposeRequest(req: HttpRequest): string
  {
    StartLineText(req.startLine) + CRLF + CRLF
  }

  function StartLineText(s: StartLine): string
  {
    s.httpMethod + " " + s.requestTarget + " " + s.httpVersion
  }

  /** The method and version words hold no space, carriage return or line feed. */
  lemma KnownWordsPlain(w: string)
    requires w == HttpMethodGet || w == HttpMethodPost || w == HttpVersion11
    ensures w != "" && ' ' !in w && '\r' !in w && '\n' !in w
  {
  }

  /** Parsing a composed request gives back its start line, with no headers and an empty body. */
  lemma ComposeParse(req: HttpRequest)
    requires req.startLine.httpMethod in {HttpMethodGet, HttpMethodPost}
    requires req.startLine.httpVersion == HttpVersion11
    requires var t := req.startLine.requestTarget; ' ' !in t && '\r' !in t && '\n' !in t
    ensures Parse(ComposeRequest(req)) == Success(HttpRequest(req.startLine, [], ""))
  {
    var s := req.startLine;
    KnownWordsPlain(s.httpMethod);
    KnownWordsPlain(s.httpVersion);
    var start := StartLineText(s);
    assert PlainLines([start] + []) by { assert PlainLine(start); }
    ComposedLayout(req);
    ParseLaidOut(start, [], "");
    StartLineWords(s.httpMethod, s.requestTarget, s.httpVersion);
    assert Kept([]) == [];
  }

  /** A composed request is a start line, no header lines, an empty line and an empty body. */
  lemma ComposedLayout(req: HttpRequest)
    ensures ComposeRequest(req) == StartLineText(req.startLine) + CRLF + Lines([]) + CRLF + ""
  {
    assert Lines([]) == "";
  }

  function HeaderLines(hs: seq<HttpHeader>): (ls: seq<string>)
    ensures |ls| == |hs| && forall i :: 0 <= i < |hs| ==> ls[i] == HeaderLine(hs[i])
  {
    seq(|hs|, i requires 0 <= i < |hs| => HeaderLine(hs[i]))
  }

  function StatusLineText(s: StatusLine): string
  {
    s.httpVersion + " " + s.httpStatusCode + " " + s.httpStatusText
  }

  /** The text composeResponse produces. */
  function ResponseText(res: HttpResponse): string
  {
    StatusLineText(res.statusLine) + CRLF + Lines(HeaderLines(res.headers)) + CRLF + res.body
  }

  method ComposeResponse(res: HttpResponse) returns (out: string)
    ensures out == ResponseText(res)
  {
    var statusLine := StatusLineText(res.statusLine) + CRLF;
    var headers := "";
    for i := 0 to |res.headers|
      invariant headers == Lines(HeaderLines(res.headers[..i]))
    {
      assert HeaderLines(res.headers[..i + 1])[..i] == HeaderLines(res.headers[..i]);
      headers := headers + res.headers[i].name + ": " + res.headers[i].value + CRLF;
    }
    assert res.headers[..|res.headers|] == res.headers;
    out := statusLine + headers + CRLF + res.body;
  }

  /** A reader of a composed response finds the body after the first empty line and the headers,
      in order, as the lines after the status line. */
  lemma ResponseReadBack(res: HttpResponse)
    requires PlainLine(StatusLineText(res.statusLine))
    requires forall i :: 0 <= i < |res.headers| ==>
      PlainLine(res.headers[i].name) && '\r' !in res.headers[i].value && '\n' !in res.headers[i].value
    ensures var c := Cut(ResponseText(res), BlankLine);
      c.found && c.after == res.body &&
      Split(c.before, CRLF) == [StatusLineText(res.statusLine)] + HeaderLines(res.headers)
  {
    var sl := StatusLineText(res.statusLine);
    var ls := HeaderLines(res.headers);
    assert PlainLines([sl] + ls) by {
      forall i | 0 <= i < |ls| ensures PlainLine(ls[i]) {
        assert ls[i] == res.headers[i].name + ": " + res.headers[i].value;
      }
    }
    ReadMessage(sl, ls, res.body);
  }

  const StatusLineOK: StatusLine := StatusLine(HttpVersion11, HttpStatusOK, HttpStatusTextOK)
  const StatusLineNotFound: StatusLine := StatusLine(HttpVersion11, HttpStatusNotFound, HttpStatusTextNotFound)

  /** A 200 text/plain response carrying `body` with its length. */
  function TextResponse(body: string): (res: HttpResponse)
    ensures res.statusLine == StatusLineOK && res.body == body
    ensures |res.headers| == 2 && res.headers[0] == HttpHeader(HttpHeaderContentType, "text/plain")
    ensures res.headers[1].name == HttpHeaderContentLength && Atoi(res.headers[1].value) == Some(|body|)
  {
    AtoiItoa(|body|);
    HttpResponse(StatusLineOK, [HttpHeader(HttpHeaderContentType, "text/plain"),
                                HttpHeader(HttpHeaderContentLength, Itoa(|body|))], body)
  }

  /** handleEchoResponse: the target after "/echo/"; a target shorter than that panics. */
  function EchoResponse(req: HttpRequest): (res: HttpResponse)
    requires |req.startLine.requestTarget| >= 6
    ensures res.statusLine == StatusLineOK && res.body == req.startLine.requestTarget[6..]
    ensures |res.headers| == 2 && res.headers[0] == HttpHeader(HttpHeaderContentType, "text/plain")
    ensures res.headers[1].name == HttpHeaderContentLength
    ensures Atoi(res.headers[1].value) == Some(|res.body|)
  {
    TextResponse(req.startLine.requestTarget[6..])
  }

  /** `i` is the position of the first header named `name`. */
  predicate FirstWith(hs: seq<HttpHeader>, name: string, i: int)
  {
    0 <= i < |hs| && hs[i].name == name && forall j :: 0 <= j < i ==> hs[j].name != name
  }

  /** The value of the first User-Agent header, or "" when there is none. */
  function FirstValue(hs: seq<HttpHeader>, name: string): (v: string)
    ensures (forall i :: 0 <= i < |hs| ==> hs[i].name != name) ==> v == ""
    ensures forall i :: FirstWith(hs, name, i) ==> v == hs[i].value
  {
    if hs == [] then ""
    else if hs[0].name == name then hs[0].value
    else
      var v := FirstValue(hs[1..], name);
      assert forall i :: 1 <= i < |hs| ==> hs[1..][i - 1] == hs[i];
      assert forall i :: FirstWith(hs, name, i) ==> FirstWith(hs[1..], name, i - 1);
      v
  }

  /** handleUserAgent. */
  method HandleUserAgent(req: HttpRequest) returns (res: HttpResponse)
    ensures res == TextResponse(FirstValue(req.headers, HttpHeaderUserAgent))
  {
    var ua := "";
    for i := 0 to |req.headers|
      invariant forall j :: 0 <= j < i ==> req.headers[j].name != HttpHeaderUserAgent
    {
      if req.headers[i].name == HttpHeaderUserAgent {
        ua := req.headers[i].value;
        break;
      }
    }
    res := TextResponse(ua);
  }

  /** handleRootResponse and handleDefaultResponse: no headers and no body. */
  const RootResponse: HttpResponse := HttpResponse(StatusLineOK, [], "")
  const DefaultResponse: HttpResponse := HttpResponse(StatusLineNotFound, [], "")

  predicate HasPrefix(s: string, prefix: string)
  {
    prefix <= s
  }

  /** The routing switch of connHandler: the first case that holds wins. */
  function Route(req: HttpRequest): HttpResponse
  {
    var t := req.startLine.requestTarget;
    if t == "/" then RootResponse
    else if HasPrefix(t, "/echo/") then EchoResponse(req)
    else if t == "/user-agent" then TextResponse(FirstValue(req.headers, HttpHeaderUserAgent))
    else DefaultResponse
  }

  /** The switch of connHandler, step by step; `Route` is the function that specifies it. */
  method Dispatch(req: HttpRequest) returns (res: HttpResponse)
    ensures res == Route(req)
  {
    var t := req.startLine.requestTarget;
    if t == "/" {
      res := RootResponse;
    } else if HasPrefix(t, "/echo/") {
      res := EchoResponse(req);
    } else if t == "/user-agent" {
      res := HandleUserAgent(req);
    } else {
      res := DefaultResponse;
    }
  }

  /** Each route answers as its handler promises; only "/", targets under "/echo/" and
      "/user-agent" get 200, everything else 404 with an empty body. */
  lemma Routing(req: HttpRequest)
    ensures var t := req.startLine.requestTarget;
      var res := Route(req);
      (t == "/" ==> res == RootResponse) &&
      (HasPrefix(t, "/echo/") ==> res.body == t[6..] && Atoi(res.headers[1].value) == Some(|t| - 6)) &&
      (t == "/user-agent" ==> res.body == FirstValue(req.headers, HttpHeaderUserAgent)) &&
      (t != "/" && !HasPrefix(t, "/echo/") && t != "/user-agent" ==> res == DefaultResponse) &&
      (res.statusLine == StatusLineOK <==> t == "/" || HasPrefix(t, "/echo/") || t == "/user-agent")
  {
    var t := req.startLine.requestTarget;
    if t == "/user-agent" {
      assert t[1] != "/echo/"[1];
    }
  }
}
