/** How an HTTP/1.1 message head is laid out on the wire (section 2.1 of RFC 9112): lines joined by
    CRLF, then an empty line, then the body. These facts are shared by the request round-trips of
    every snapshot. */
module Framing {
  import opened GoStrings

  const BlankLine: string := "\r\n\r\n"

  /** A head line: not empty, and without carriage returns or line feeds. */
  predicate PlainLine(l: string)
  {
    l != [] && '\r' !in l && '\n' !in l
  }

  predicate PlainLines(lines: seq<string>)
  {
    forall i :: 0 <= i < |lines| ==> PlainLine(lines[i])
  }

  lemma JoinFirstChar(lines: seq<string>, sep: string)
    requires |lines| >= 1 && lines[0] != []
    ensures Join(lines, sep) != [] && Join(lines, sep)[0] == lines[0][0]
  {
  }

  /** The first empty line of `head + CRLF CRLF + body` ends the head when the head lines are plain. */
  lemma {:induction false} BlankLineIndex(lines: seq<string>, body: string)
    requires |lines| >= 1 && PlainLines(lines)
    ensures Index(Join(lines, CRLF) + BlankLine + body, BlankLine) == |Join(lines, CRLF)|
    decreases |lines|
  {
    if |lines| == 1 {
      assert Join(lines, CRLF) == lines[0];
      IndexAfterClean(lines[0], BlankLine, body);
    } else {
      var l0, rest := lines[0], lines[1..];
      var tail := Join(rest, CRLF) + BlankLine + body;
      var a := l0 + CRLF;
      var s := a + tail;
      assert Join(lines, CRLF) + BlankLine + body == s;
      JoinFirstChar(rest, CRLF);
      assert tail[0] == rest[0][0];
      forall j | 0 <= j < |a|
        ensures !OccursAt(s, BlankLine, j)
      {
        if j + |BlankLine| <= |s| {
          var w := s[j..j + |BlankLine|];
          if j < |l0| {
            assert w[0] == l0[j] && l0[j] != '\r';
          } else if j == |l0| {
            assert w[2] == tail[0] && tail[0] != '\r';
          } else {
            assert w[0] == '\n';
          }
          assert w != BlankLine;
        }
      }
      IndexShift(a, tail, BlankLine);
      BlankLineIndex(rest, body);
    }
  }

  /** Cutting a serialised message at its first empty line gives back the head and the body. */
  lemma BlankLineCut(lines: seq<string>, body: string)
    requires |lines| >= 1 && PlainLines(lines)
    ensures Cut(Join(lines, CRLF) + BlankLine + body, BlankLine) == CutResult(Join(lines, CRLF), body, true)
  {
    var s := Join(lines, CRLF) + BlankLine + body;
    BlankLineIndex(lines, body);
    var n := |Join(lines, CRLF)|;
    assert s[..n] == Join(lines, CRLF);
    assert s[n + 4..] == body;
  }

  /** Splitting a plain head on CRLF gives back its lines. */
  lemma HeadLines(lines: seq<string>)
    requires |lines| >= 1 && PlainLines(lines)
    ensures Split(Join(lines, CRLF), CRLF) == lines
  {
    SplitJoin(lines, CRLF);
  }

  /** Splitting `a b c` on single spaces gives the three words back when none holds a space. */
  lemma StartLineWords(a: string, b: string, c: string)
    requires ' ' !in a && ' ' !in b && ' ' !in c
    ensures Split(a + " " + b + " " + c, " ") == [a, b, c]
  {
    var words := [a, b, c];
    assert words[1..] == [b, c] && [b, c][1..] == [c];
    assert Join([c], " ") == c;
    assert Join([b, c], " ") == b + " " + c;
    assert Join(words, " ") == a + " " + (b + " " + c);
    assert a + " " + (b + " " + c) == a + " " + b + " " + c;
    assert forall i :: 0 <= i < |words| ==> " "[0] !in words[i];
    SplitJoin(words, " ");
  }

  /** Cutting `name: value` at the first colon-space gives back the name and value when the name has
      no colon. */
  lemma HeaderLineCut(name: string, value: string)
    requires ':' !in name
    ensures Cut(name + ": " + value, ": ") == CutResult(name, value, true)
  {
    IndexAfterClean(name, ": ", value);
    var s := name + ": " + value;
    assert s[..|name|] == name;
    assert s[|name| + 2..] == value;
  }

  /** Each line followed by CRLF: a header block. */
  function Lines(ls: seq<string>): string
  {
    if ls == [] then "" else Lines(ls[..|ls| - 1]) + ls[|ls| - 1] + CRLF
  }

  lemma {:induction false} JoinSnoc(xs: seq<string>, y: string, sep: string)
    requires |xs| >= 1
    ensures Join(xs + [y], sep) == Join(xs, sep) + sep + y
    decreases |xs|
  {
    if |xs| > 1 {
      assert (xs + [y])[1..] == xs[1..] + [y];
      JoinSnoc(xs[1..], y, sep);
    }
  }

  /** A start line, CRLF and a header block are the head lines joined by CRLF, plus CRLF. */
  lemma {:induction false} JoinLines(start: string, ls: seq<string>)
    ensures Join([start] + ls, CRLF) + CRLF == start + CRLF + Lines(ls)
    decreases |ls|
  {
    if ls != [] {
      var init := ls[..|ls| - 1];
      JoinLines(start, init);
      assert [start] + ls == ([start] + init) + [ls[|ls| - 1]];
      JoinSnoc([start] + init, ls[|ls| - 1], CRLF);
    }
  }

  /** A message laid out as start line, header block, empty line and body is read back: the body
      follows the first empty line, and the head splits into the start line and the header lines. */
  lemma ReadMessage(start: string, ls: seq<string>, body: string)
    requires PlainLines([start] + ls)
    ensures Cut(start + CRLF + Lines(ls) + CRLF + body, BlankLine) == CutResult(Join([start] + ls, CRLF), body, true)
    ensures Split(Join([start] + ls, CRLF), CRLF) == [start] + ls
  {
    JoinLines(start, ls);
    assert start + CRLF + Lines(ls) + CRLF + body == Join([start] + ls, CRLF) + BlankLine + body;
    BlankLineCut([start] + ls, body);
    HeadLines([start] + ls);
  }
}
