/** Requests of the request.go snapshot (app/request.go): start-line fields, an ordered list of
    known headers and a body, with validation, lookup, serialisation and parsing. */
module MainRequest {
  import opened Wrappers
  import opened GoStrings
  import opened Framing
  import opened MainHeader
  import SR = ServerRequest

  /** knownVersions and knownMethods (app/method.go). */
  const KnownVersions: set<string> := {SR.Version11}
  const KnownMethods: set<string> := {SR.MethodGet, SR.MethodPost}

  const Malformed: string := "malformed request"
  const Invalid: string := "invalid request"
  const NotFound: string := "header not found"

  datatype Request = Request(Version: string, Method: string, Target: string, Headers: seq<Header>, Body: string)

  predicate AllValid(hs: seq<Header>)
  {
    forall i :: 0 <= i < |hs| ==> MainHeader.IsValid(hs[i])
  }

  /** What isValid checks: the version, the method and every header; the target is not checked. */
  predicate Valid(r: Request)
  {
    r.Version in KnownVersions && r.Method in KnownMethods && AllValid(r.Headers)
  }

  method IsValid(r: Request) returns (ok: bool)
    ensures ok <==> Valid(r)
  {
    if r.Version !in KnownVersions {
      return false;
    }
    if r.Method !in KnownMethods {
      return false;
    }
    for i := 0 to |r.Headers|
      invariant AllValid(r.Headers[..i])
    {
      if !MainHeader.IsValid(r.Headers[i]) {
        return false;
      }
    }
    return true;
  }

  function StartLine(r: Request): string
  {
    r.Method + " " + r.Target + " " + r.Version
  }

  function HeaderLines(hs: seq<Header>): (ls: seq<string>)
    ensures |ls| == |hs| && forall i :: 0 <= i < |hs| ==> ls[i] == Line(hs[i])
  {
    seq(|hs|, i requires 0 <= i < |hs| => Line(hs[i]))
  }

  /** The text ToString produces: start line, one line per header in order, empty line, body. */
  function Text(r: Request): string
  {
    StartLine(r) + CRLF + Lines(HeaderLines(r.Headers)) + CRLF + r.Body
  }

  method ToString(r: Request) returns (s: string)
    ensures s == Text(r)
  {
    var headers := "";
    for i := 0 to |r.Headers|
      invariant headers == Lines(HeaderLines(r.Headers[..i]))
    {
      assert HeaderLines(r.Headers[..i + 1])[..i] == HeaderLines(r.Headers[..i]);
      headers := headers + MainHeader.ToString(r.Headers[i]);
    }
    assert r.Headers[..|r.Headers|] == r.Headers;
    s := r.Method + " " + r.Target + " " + r.Version + CRLF + headers + CRLF + r.Body;
  }

  /** Header: the value of the first header with that name. */
  method Header(r: Request, name: string) returns (res: Result<string, string>)
    ensures res.Failure? <==> forall i :: 0 <= i < |r.Headers| ==> r.Headers[i].name != name
    ensures res.Failure? ==> res.error == NotFound
    ensures res.Success? ==>
      exists i :: 0 <= i < |r.Headers| && r.Headers[i].name == name && r.Headers[i].value == res.value &&
                  forall j :: 0 <= j < i ==> r.Headers[j].name != name
  {
    for i := 0 to |r.Headers|
      invariant forall j :: 0 <= j < i ==> r.Headers[j].name != name
    {
      if r.Headers[i].name == name {
        return Success(r.Headers[i].value);
      }
    }
    return Failure(NotFound);
  }

  /** The headers parseRequest keeps from some header lines: those parseHeader accepts, in order. */
  function Kept(lines: seq<string>): (hs: seq<Header>)
    ensures AllValid(hs) && |hs| <= |lines|
  {
    if lines == [] then []
    else
      var init := Kept(lines[..|lines| - 1]);
      match ParseHeader(lines[|lines| - 1])
      case Success(h) => init + [h]
      case Failure(_) => init
  }

  /** parseRequest, as a function of the text. */
  function Parse(r: string): (res: Result<Request, string>)
    ensures res.Success? ==> Valid(res.value)
    ensures res.Failure? ==> res.error == Malformed || res.error == Invalid
  {
    var c := Cut(r, BlankLine);
    var headlines := Split(c.before, CRLF);
    var first := Split(headlines[0], " ");
    if |first| != 3 then Failure(Malformed)
    else
      var req := Request(first[2], first[0], first[1], Kept(headlines[1..]), c.after);
      if Valid(req) then Success(req) else Failure(Invalid)
  }

  method ParseRequest(r: string) returns (res: Result<Request, string>)
    ensures res == Parse(r)
  {
    var c := Cut(r, BlankLine);
    var body := c.after;
    var headlines := Split(c.before, CRLF);
    var firstLine := Split(headlines[0], " ");
    if |firstLine| != 3 {
      return Failure(Malformed);
    }
    var lines := headlines[1..];
    var headers: seq<Header> := [];
    if |headlines| > 1 {
      for i := 0 to |lines|
        invariant headers == Kept(lines[..i])
      {
        TakeSnoc(lines, i);
        KeptSnoc(lines[..i], lines[i]);
        var h := ParseHeader(lines[i]);
        if h.Failure? {
          continue;
        }
        headers := headers + [h.value];
      }
      assert lines[..|lines|] == lines;
    }
    assert headers == Kept(lines);
    assert Parse(r) == Outcome(firstLine, lines, body);
    var req := Request(firstLine[2], firstLine[0], firstLine[1], headers, body);
    var ok := IsValid(req);
    if !ok {
      return Failure(Invalid);
    }
    return Success(req);
  }

  /** Kept works line by line: lines of a later part come after those of an earlier one, and a
      refused line contributes nothing. */
  lemma {:induction false} KeptAppend(a: seq<string>, b: seq<string>)
    ensures Kept(a + b) == Kept(a) + Kept(b)
    decreases |b|
  {
    if b != [] {
      var b' := b[..|b| - 1];
      assert (a + b)[..|a + b| - 1] == a + b';
      KeptAppend(a, b');
    } else {
      assert a + b == a;
    }
  }

  /** Kept on one more line: the line's header is appended when parseHeader accepts it. */
  lemma KeptSnoc(lines: seq<string>, l: string)
    ensures Kept(lines + [l]) == if ParseHeader(l).Success? then Kept(lines) + [ParseHeader(l).value] else Kept(lines)
  {
    assert (lines + [l])[..|lines|] == lines;
  }

  lemma HeaderLinesSnoc(hs: seq<Header>)
    requires hs != []
    ensures HeaderLines(hs) == HeaderLines(hs[..|hs| - 1]) + [Line(hs[|hs| - 1])]
  {
  }

  /** The lines of valid headers give those headers back, in order. */
  lemma {:induction false} KeptLines(hs: seq<Header>)
    requires AllValid(hs)
    ensures Kept(HeaderLines(hs)) == hs
    decreases |hs|
  {
    if hs != [] {
      var init, last := hs[..|hs| - 1], hs[|hs| - 1];
      assert hs == init + [last];
      HeaderLinesSnoc(hs);
      KeptLines(init);
      ParseLine(last);
      KeptSnoc(HeaderLines(init), Line(last));
    }
  }


  /** Because kept headers are always valid, "invalid request" comes only from the start line. */
  lemma InvalidFromStartLine(r: string)
    ensures var first := Split(Split(Cut(r, BlankLine).before, CRLF)[0], " ");
      Parse(r) == Failure(Invalid) <==>
        |first| == 3 && (first[2] !in KnownVersions || first[0] !in KnownMethods)
  {
  }

  /** The body is everything after the first empty line. */
  lemma ParsedBody(r: string)
    requires Parse(r).Success?
    ensures var c := Cut(r, BlankLine);
      Parse(r).value.Body == c.after && (c.found ==> r == c.before + BlankLine + c.after)
  {
  }

  /** The outcome for a message laid out as start line, header lines, empty line and body. */
  function Outcome(words: seq<string>, lines: seq<string>, body: string): Result<Request, string>
  {
    if |words| != 3 then Failure(Malformed)
    else
      var req := Request(words[2], words[0], words[1], Kept(lines), body);
      if Valid(req) then Success(req) else Failure(Invalid)
  }

  lemma ParseLaidOut(start: string, lines: seq<string>, body: string)
    requires PlainLines([start] + lines)
    ensures Parse(start + CRLF + Lines(lines) + CRLF + body) == Outcome(Split(start, " "), lines, body)
  {
    var r := start + CRLF + Lines(lines) + CRLF + body;
    ReadMessage(start, lines, body);
    var c := Cut(r, BlankLine);
    var headlines := Split(c.before, CRLF);
    assert headlines == [start] + lines;
    assert headlines[0] == start && headlines[1..] == lines;
  }

  /** A start line that is not three words is "malformed request", whatever the header lines. */
  lemma MalformedStartLine(start: string, lines: seq<string>, body: string)
    requires PlainLines([start] + lines) && |Split(start, " ")| != 3
    ensures Parse(start + CRLF + Lines(lines) + CRLF + body) == Failure(Malformed)
  {
    ParseLaidOut(start, lines, body);
  }

  /** Header values and the target: no spaces (target only), carriage returns or line feeds. */
  predicate Printable(r: Request)
  {
    ' ' !in r.Target && '\r' !in r.Target && '\n' !in r.Target &&
    forall i :: 0 <= i < |r.Headers| ==> '\r' !in r.Headers[i].value && '\n' !in r.Headers[i].value
  }

  /** A valid request whose fields hold no separators is parsed back from its text. */
  lemma RoundTrip(r: Request)
    requires Valid(r) && Printable(r)
    ensures Parse(Text(r)) == Success(r)
  {
    var start, ls := StartLine(r), HeaderLines(r.Headers);
    PlainHead(r);
    ParseLaidOut(start, ls, r.Body);
    StartWords(r);
    KeptLines(r.Headers);
  }

  lemma StartWords(r: Request)
    requires Printable(r) && r.Method in KnownMethods && r.Version in KnownVersions
    ensures Split(StartLine(r), " ") == [r.Method, r.Target, r.Version]
  {
    StartLineWords(r.Method, r.Target, r.Version);
  }

  lemma PlainHead(r: Request)
    requires Valid(r) && Printable(r)
    ensures PlainLines([StartLine(r)] + HeaderLines(r.Headers))
  {
    var start := StartLine(r);
    var ls := HeaderLines(r.Headers);
    forall i | 0 <= i < |ls| ensures PlainLine(ls[i]) {
      KnownHaveNoColon(r.Headers[i].name);
    }
    assert PlainLine(start);
  }
}
