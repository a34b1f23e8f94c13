/** Request parsing in the `server` package (app/server/request.go). */
module ServerRequest {
  import opened Wrappers
  import opened GoStrings
  import opened ServerHeader
  import Framing

  const Version11: string := "HTTP/1.1"
  const MethodGet: string := "GET"
  const MethodPost: string := "POST"

  datatype Request = Request(Method: string, Target: string, Headers: HeaderMap, Body: string)

  /** "error parsing head", "invalid version", "invalid method". */
  datatype ParseError = HeadError | BadVersion | BadMethod

  /** `sep` first occurs in `s` at `i`. */
  ghost predicate FirstAt(s: string, sep: string, i: int)
  {
    OccursAt(s, sep, i) && forall j :: 0 <= j < i ==> !OccursAt(s, sep, j)
  }

  /** parseRequest: cut off the body at the first empty line, split the head into lines, parse the
      header lines (never an error), then split the start line into three words and check the
      version before the method. */
  function ParseRequest(r: string): (res: Result<Request, ParseError>)
    ensures res.Success? ==> res.value.Method in {MethodGet, MethodPost}
  {
    var c := Cut(r, Framing.BlankLine);
    var headlines := Split(c.before, CRLF);
    var headers := if |headlines| > 1 then HeadersOf(headlines[1..]) else map[];
    var words := Split(headlines[0], " ");
    Verdict(words, headers, c.after)
  }

  /** The checks on the start line's words, in the order parseRequest makes them. */
  function Verdict(words: seq<string>, headers: HeaderMap, body: string): Result<Request, ParseError>
  {
    if |words| != 3 then Failure(HeadError)
    else if words[2] != Version11 then Failure(BadVersion)
    else if words[0] != MethodGet && words[0] != MethodPost then Failure(BadMethod)
    else Success(Request(words[0], words[1], headers, body))
  }

  /** The body is everything after the first empty line, or empty when there is none. */
  lemma ParsedBody(r: string)
    requires ParseRequest(r).Success?
    ensures Free(r, Framing.BlankLine) ==> ParseRequest(r).value.Body == ""
    ensures !Free(r, Framing.BlankLine) ==>
      exists i :: FirstAt(r, Framing.BlankLine, i) && ParseRequest(r).value.Body == r[i + 4..]
  {
    var c := Cut(r, Framing.BlankLine);
    if c.found {
      assert FirstAt(r, Framing.BlankLine, |c.before|);
      assert r[|c.before| + 4..] == c.after;
    }
  }

  /** The target is the start line's middle word: it holds no space, but is otherwise unchecked. */
  lemma ParsedTarget(r: string)
    requires ParseRequest(r).Success?
    ensures ' ' !in ParseRequest(r).value.Target
  {
    var c := Cut(r, Framing.BlankLine);
    var words := Split(Split(c.before, CRLF)[0], " ");
    FreeChar(words[1], ' ');
  }

  /** The text of a request with start line `start`, header lines `lines` and body `body`. */
  function Assemble(start: string, lines: seq<string>, body: string): string
  {
    Join([start] + lines, CRLF) + Framing.BlankLine + body
  }

  lemma AssembledParts(start: string, lines: seq<string>, body: string)
    requires Framing.PlainLine(start) && Framing.PlainLines(lines)
    ensures var c := Cut(Assemble(start, lines, body), Framing.BlankLine);
      c.after == body && Split(c.before, CRLF) == [start] + lines
  {
    assert Framing.PlainLines([start] + lines);
    Framing.BlankLineCut([start] + lines, body);
    Framing.HeadLines([start] + lines);
  }

  /** Parsing an assembled request comes down to the start line's words. */
  lemma ParseAssembled(start: string, lines: seq<string>, body: string)
    requires Framing.PlainLine(start) && Framing.PlainLines(lines)
    ensures ParseRequest(Assemble(start, lines, body)) == Verdict(Split(start, " "), HeadersOf(lines), body)
  {
    AssembledParts(start, lines, body);
    assert ([start] + lines)[1..] == lines;
  }

  /** A well-formed request parses to its method, target, header table and body. */
  lemma ParseWellFormed(verb: string, target: string, lines: seq<string>, body: string)
    requires verb in {MethodGet, MethodPost}
    requires ' ' !in target && '\r' !in target && '\n' !in target
    requires Framing.PlainLines(lines)
    ensures ParseRequest(Assemble(verb + " " + target + " " + Version11, lines, body))
      == Success(Request(verb, target, HeadersOf(lines), body))
  {
    var start := verb + " " + target + " " + Version11;
    WellFormedStart(verb, target);
    ParseAssembled(start, lines, body);
    assert Verdict([verb, target, Version11], HeadersOf(lines), body) == Success(Request(verb, target, HeadersOf(lines), body));
  }

  lemma WellFormedStart(verb: string, target: string)
    requires verb in {MethodGet, MethodPost}
    requires ' ' !in target && '\r' !in target && '\n' !in target
    ensures Framing.PlainLine(verb + " " + target + " " + Version11)
    ensures Split(verb + " " + target + " " + Version11, " ") == [verb, target, Version11]
  {
    MethodWord(verb);
    assert Framing.PlainLine(verb + " " + target + " " + Version11);
    Framing.StartLineWords(verb, target, Version11);
  }

  lemma MethodWord(verb: string)
    requires verb in {MethodGet, MethodPost}
    ensures PlainWord(verb) && verb != ""
  {
  }

  /** Header lines never decide whether a request is accepted. */
  lemma HeaderLinesNeverReject(start: string, lines1: seq<string>, lines2: seq<string>, body: string)
    requires Framing.PlainLine(start) && Framing.PlainLines(lines1) && Framing.PlainLines(lines2)
    ensures ParseRequest(Assemble(start, lines1, body)).Success? == ParseRequest(Assemble(start, lines2, body)).Success?
  {
    ParseAssembled(start, lines1, body);
    ParseAssembled(start, lines2, body);
    VerdictIgnoresHeaders(Split(start, " "), HeadersOf(lines1), HeadersOf(lines2), body);
  }

  lemma VerdictIgnoresHeaders(words: seq<string>, h1: HeaderMap, h2: HeaderMap, body: string)
    ensures Verdict(words, h1, body).Success? == Verdict(words, h2, body).Success?
  {
  }

  /** With the start line alone there are no headers. */
  lemma StartLineOnly(verb: string, target: string, body: string)
    requires verb in {MethodGet, MethodPost}
    requires ' ' !in target && '\r' !in target && '\n' !in target
    ensures var res := ParseRequest(Assemble(verb + " " + target + " " + Version11, [], body));
      res.Success? && res.value.Headers == map[]
  {
    ParseWellFormed(verb, target, [], body);
  }

  /** The target is not checked: two spaces in a row give an empty target, and it is accepted. */
  lemma EmptyTargetAccepted()
    ensures ParseRequest("GET  HTTP/1.1\r\n\r\n") == Success(Request("GET", "", map[], ""))
  {
    assert Assemble("GET" + " " + "" + " " + Version11, [], "") == "GET  HTTP/1.1\r\n\r\n";
    ParseWellFormed("GET", "", [], "");
  }

  /** Words on the start line: no spaces, carriage returns or line feeds. */
  predicate PlainWord(w: string)
  {
    ' ' !in w && '\r' !in w && '\n' !in w
  }

  predicate PlainWords(words: seq<string>)
  {
    forall i :: 0 <= i < |words| ==> PlainWord(words[i])
  }

  lemma {:induction false} JoinPlainWords(words: seq<string>)
    requires PlainWords(words)
    ensures '\r' !in Join(words, " ") && '\n' !in Join(words, " ")
    decreases |words|
  {
    if |words| > 1 {
      JoinPlainWords(words[1..]);
    }
  }

  /** A start line that is not exactly three words is a head error, whatever the header lines. */
  lemma WordCountChecked(words: seq<string>, lines: seq<string>, body: string)
    requires |words| >= 1 && |words| != 3 && PlainWords(words) && Join(words, " ") != ""
    requires Framing.PlainLines(lines)
    ensures ParseRequest(Assemble(Join(words, " "), lines, body)) == Failure(HeadError)
  {
    JoinPlainWords(words);
    ParseAssembled(Join(words, " "), lines, body);
    SplitJoin(words, " ");
  }

  /** A doubled space gives four words, which is a head error. */
  lemma DoubleSpaceRejected(target: string, lines: seq<string>, body: string)
    requires PlainWord(target)
    requires Framing.PlainLines(lines)
    ensures ParseRequest(Assemble("GET  " + target + " HTTP/1.1", lines, body)) == Failure(HeadError)
  {
    var words := ["GET", "", target, "HTTP/1.1"];
    assert Join(words, " ") == "GET  " + target + " HTTP/1.1" by {
      assert words[1..] == ["", target, "HTTP/1.1"];
      assert words[1..][1..] == [target, "HTTP/1.1"];
      assert words[1..][1..][1..] == ["HTTP/1.1"];
      assert Join([target, "HTTP/1.1"], " ") == target + " " + "HTTP/1.1";
      assert Join(["", target, "HTTP/1.1"], " ") == "" + " " + (target + " " + "HTTP/1.1");
      assert Join(words, " ") == "GET" + " " + ("" + " " + (target + " " + "HTTP/1.1"));
    }
    WordCountChecked(words, lines, body);
  }

  /** The version is checked before the method: a wrong version is reported as such even when the
      method is wrong too. */
  lemma VersionCheckedFirst(verb: string, target: string, version: string, lines: seq<string>, body: string)
    requires PlainWord(verb) && PlainWord(target) && PlainWord(version) && verb != ""
    requires version != Version11
    requires Framing.PlainLines(lines)
    ensures ParseRequest(Assemble(verb + " " + target + " " + version, lines, body)) == Failure(BadVersion)
  {
    var start := verb + " " + target + " " + version;
    Framing.StartLineWords(verb, target, version);
    assert PlainWords([verb, target, version]);
    JoinPlainWords([verb, target, version]);
    ParseAssembled(start, lines, body);
  }

  /** With the right version, any method other than GET and POST is rejected. */
  lemma MethodChecked(verb: string, target: string, lines: seq<string>, body: string)
    requires PlainWord(verb) && PlainWord(target) && verb != ""
    requires verb != MethodGet && verb != MethodPost
    requires Framing.PlainLines(lines)
    ensures ParseRequest(Assemble(verb + " " + target + " " + Version11, lines, body)) == Failure(BadMethod)
  {
    var start := verb + " " + target + " " + Version11;
    var words := [verb, target, Version11];
    assert PlainWord(Version11);
    assert PlainWords(words);
    Framing.StartLineWords(verb, target, Version11);
    JoinPlainWords(words);
    ParseAssembled(start, lines, body);
    assert Verdict(words, HeadersOf(lines), body) == Failure(BadMethod);
  }
}
