/** Parsing for the types.go snapshot (app/parsers.go): header lines and whole requests.
    The repository keeps each snapshot as its own copy of the parser, so this module repeats the
    shape of MainRequest and Legacy over its own types rather than sharing their definitions. */
module Parsers {
  import opened Wrappers
  import opened GoStrings
  import opened Framing
  import opened Types

  const InvalidHeader: string := "invalid header"
  const Malformed: string := "malformed request"
  const Invalid: string := "invalid request"

  /** parseHeader: the name is the text before the first ": ", the value all the rest. */
  function ParseHeader(line: string): (r: Result<HttpHeader, string>)
    ensures r.Failure? ==> r.error == InvalidHeader
    ensures r.Success? <==> Cut(line, ": ").found && HeaderIsValid(HttpHeader(Cut(line, ": ").before, Cut(line, ": ").after))
    ensures r.Success? ==> HeaderIsValid(r.value) && HeaderLine(r.value) == line
  {
    var c := Cut(line, ": ");
    if !c.found then Failure(InvalidHeader)
    else
      var h := HttpHeader(c.before, c.after);
      if !HeaderIsValid(h) then Failure(InvalidHeader) else Success(h)
  }

  /** A valid header is read back from its line. */
  lemma ParseHeaderLine(h: HttpHeader)
    requires HeaderIsValid(h)
    ensures ParseHeader(HeaderLine(h)) == Success(h)
  {
    ValidNamePlain(h);
    HeaderLineCut(h.name, h.value);
  }

  /** A line without ": " is refused. */
  lemma NoSeparatorRejected(line: string)
    requires !Cut(line, ": ").found
    ensures ParseHeader(line) == Failure(InvalidHeader)
  {
  }

  /** The headers kept from some header lines: those parseHeader accepts, in order. */
  function Kept(lines: seq<string>): (hs: seq<HttpHeader>)
    ensures HeadersValid(hs) && |hs| <= |lines|
  {
    if lines == [] then []
    else
      var init := Kept(lines[..|lines| - 1]);
      match ParseHeader(lines[|lines| - 1])
      case Success(h) => init + [h]
      case Failure(_) => init
  }

  /** parseRequest, as a function of the text. */
  function Parse(r: string): (res: Result<HttpRequest, string>)
    ensures res.Success? ==> RequestIsValid(res.value)
    ensures res.Failure? ==> res.error == Malformed || res.error == Invalid
  {
    var c := Cut(r, BlankLine);
    var headlines := Split(c.before, CRLF);
    var first := Split(headlines[0], " ");
    if |first| != 3 then Failure(Malformed)
    else
      var req := HttpRequest(StartLine(first[0], first[1], first[2]), Kept(headlines[1..]), c.after);
      if RequestIsValid(req) then Success(req) else Failure(Invalid)
  }

  method ParseRequest(r: string) returns (res: Result<HttpRequest, string>)
    ensures res == Parse(r)
  {
    var c := Cut(r, BlankLine);
    var body := c.after;
    var headlines := Split(c.before, CRLF);
    var firstLine := Split(headlines[0], " ");
    if |firstLine| != 3 {
      return Failure(Malformed);
    }
    var start := StartLine(firstLine[0], firstLine[1], firstLine[2]);
    var lines := headlines[1..];
    var headers: seq<HttpHeader> := [];
    if |headlines| > 1 {
      for i := 0 to |lines|
        invariant headers == Kept(lines[..i])
      {
        TakeSnoc(lines, i);
        KeptSnoc(lines[..i], lines[i]);
        var h := ParseHeader(lines[i]);
        if h.Failure? {
          continue;
        }
        headers := headers + [h.value];
      }
      assert lines[..|lines|] == lines;
    }
    assert headers == Kept(lines);
    assert Parse(r) == Outcome(firstLine, lines, body);
    var req := HttpRequest(start, headers, body);
    var ok := IsValid(req);
    if !ok {
      return Failure(Invalid);
    }
    return Success(req);
  }

  /** Kept works line by line: later lines' headers come after earlier ones', and a refused line
      contributes nothing. */
  lemma {:induction false} KeptAppend(a: seq<string>, b: seq<string>)
    ensures Kept(a + b) == Kept(a) + Kept(b)
    decreases |b|
  {
    if b != [] {
      var b' := b[..|b| - 1];
      assert (a + b)[..|a + b| - 1] == a + b';
      KeptAppend(a, b');
    } else {
      assert a + b == a;
    }
  }

  /** Kept on one more line: the line's header is appended when parseHeader accepts it. */
  lemma KeptSnoc(lines: seq<string>, l: string)
    ensures Kept(lines + [l]) == if ParseHeader(l).Success? then Kept(lines) + [ParseHeader(l).value] else Kept(lines)
  {
    assert (lines + [l])[..|lines|] == lines;
  }

  lemma HeaderLinesSnoc(hs: seq<HttpHeader>)
    requires hs != []
    ensures HeaderLines(hs) == HeaderLines(hs[..|hs| - 1]) + [HeaderLine(hs[|hs| - 1])]
  {
  }

  /** The lines of valid headers give those headers back, in order. */
  lemma {:induction false} KeptLines(hs: seq<HttpHeader>)
    requires HeadersValid(hs)
    ensures Kept(HeaderLines(hs)) == hs
    decreases |hs|
  {
    if hs != [] {
      var init, last := hs[..|hs| - 1], hs[|hs| - 1];
      assert hs == init + [last];
      HeaderLinesSnoc(hs);
      KeptLines(init);
      ParseHeaderLine(last);
      KeptSnoc(HeaderLines(init), HeaderLine(last));
    }
  }


  /** Success means version HTTP/1.1 and method GET or POST; "invalid request" comes only from the
      start line, since kept headers are always valid. */
  lemma InvalidFromStartLine(r: string)
    ensures var first := Split(Split(Cut(r, BlankLine).before, CRLF)[0], " ");
      Parse(r) == Failure(Invalid) <==>
        |first| == 3 && !StartLineIsValid(StartLine(first[0], first[1], first[2]))
  {
  }

  /** The body is everything after the first empty line. */
  lemma ParsedBody(r: string)
    requires Parse(r).Success?
    ensures var c := Cut(r, BlankLine);
      Parse(r).value.body == c.after && (c.found ==> r == c.before + BlankLine + c.after)
  {
  }

  function Outcome(words: seq<string>, lines: seq<string>, body: string): Result<HttpRequest, string>
  {
    if |words| != 3 then Failure(Malformed)
    else
      var req := HttpRequest(StartLine(words[0], words[1], words[2]), Kept(lines), body);
      if RequestIsValid(req) then Success(req) else Failure(Invalid)
  }

  lemma ParseLaidOut(start: string, lines: seq<string>, body: string)
    requires PlainLines([start] + lines)
    ensures Parse(start + CRLF + Lines(lines) + CRLF + body) == Outcome(Split(start, " "), lines, body)
  {
    var r := start + CRLF + Lines(lines) + CRLF + body;
    ReadMessage(start, lines, body);
    var c := Cut(r, BlankLine);
    var headlines := Split(c.before, CRLF);
    assert headlines == [start] + lines;
    assert headlines[0] == start && headlines[1..] == lines;
  }

  /** A start line that is not three words is "malformed request", whatever the header lines. */
  lemma MalformedStartLine(start: string, lines: seq<string>, body: string)
    requires PlainLines([start] + lines) && |Split(start, " ")| != 3
    ensures Parse(start + CRLF + Lines(lines) + CRLF + body) == Failure(Malformed)
  {
    ParseLaidOut(start, lines, body);
  }

  predicate Printable(r: HttpRequest)
  {
    var t := r.startLine.requestTarget;
    ' ' !in t && '\r' !in t && '\n' !in t &&
    forall i :: 0 <= i < |r.headers| ==> '\r' !in r.headers[i].value && '\n' !in r.headers[i].value
  }

  lemma StartWords(s: StartLine)
    requires StartLineIsValid(s) && ' ' !in s.requestTarget
    ensures Split(StartLineText(s), " ") == [s.httpMethod, s.requestTarget, s.httpVersion]
  {
    StartLineWords(s.httpMethod, s.requestTarget, s.httpVersion);
  }

  lemma PlainHead(r: HttpRequest)
    requires RequestIsValid(r) && Printable(r)
    ensures PlainLines([StartLineText(r.startLine)] + HeaderLines(r.headers))
  {
    var ls := HeaderLines(r.headers);
    forall i | 0 <= i < |ls| ensures PlainLine(ls[i]) {
      var h := r.headers[i];
      ValidNamePlain(h);
      assert ls[i] == h.name + ": " + h.value;
    }
    var s := r.startLine;
    assert PlainLine(s.httpMethod) && PlainLine(s.httpVersion);
    assert PlainLine(StartLineText(s));
  }

  lemma ValidNamePlain(h: HttpHeader)
    requires HeaderIsValid(h)
    ensures PlainLine(h.name) && ':' !in h.name
  {
    if h.name == HttpHeaderAllow || h.name == HttpHeaderContentType {
      ShortNamesPlain();
    } else {
      LongNamesPlain();
    }
  }

  lemma ShortNamesPlain()
    ensures PlainLine(HttpHeaderAllow) && ':' !in HttpHeaderAllow
    ensures PlainLine(HttpHeaderContentType) && ':' !in HttpHeaderContentType
  {
  }

  lemma LongNamesPlain()
    ensures PlainLine(HttpHeaderContentLength) && ':' !in HttpHeaderContentLength
    ensures PlainLine(HttpHeaderUserAgent) && ':' !in HttpHeaderUserAgent
  {
  }

  /** A valid request whose fields hold no separators is parsed back from its text. */
  lemma RoundTrip(r: HttpRequest)
    requires RequestIsValid(r) && Printable(r)
    ensures Parse(RequestText(r)) == Success(r)
  {
    PlainHead(r);
    ParseLaidOut(StartLineText(r.startLine), HeaderLines(r.headers), r.body);
    StartWords(r.startLine);
    KeptLines(r.headers);
  }
}
