/** Request headers of the request.go snapshot (app/header.go): a name/value pair, valid when the
    name is one of four known headers, read from and written as a `Name: value` line. */
module MainHeader {
  import opened Wrappers
  import opened GoStrings
  import Framing
  import SH = ServerHeader

  /** knownHeaders; names are compared case-sensitively. */
  const KnownHeaders: set<string> := {SH.Allow, SH.ContentType, SH.ContentLength, SH.UserAgent}

  const InvalidHeader: string := "invalid header"

  datatype Header = Header(name: string, value: string)

  predicate IsValid(h: Header)
  {
    h.name in KnownHeaders
  }

  /** The line of a header without its CRLF. */
  function Line(h: Header): string
  {
    h.name + ": " + h.value
  }

  /** header.ToString. */
  function ToString(h: Header): (s: string)
    ensures |s| >= 2 && s[|s| - 2..] == CRLF
    ensures IsValid(h) ==> ParseHeader(s[..|s| - 2]) == Success(h)
  {
    var s := Line(h) + CRLF;
    assert s[..|s| - 2] == Line(h);
    if IsValid(h) then ParseLine(h); s else s
  }

  /** parseHeader: the name is the text before the first ": ", the value all the rest. */
  function ParseHeader(line: string): (r: Result<Header, string>)
    ensures r.Failure? ==> r.error == InvalidHeader
    ensures r.Success? <==> Cut(line, ": ").found && Cut(line, ": ").before in KnownHeaders
    ensures r.Success? ==> IsValid(r.value) && Line(r.value) == line
  {
    var c := Cut(line, ": ");
    if !c.found then Failure(InvalidHeader)
    else
      var h := Header(c.before, c.after);
      if !IsValid(h) then Failure(InvalidHeader) else Success(h)
  }

  lemma KnownHaveNoColon(name: string)
    requires name in KnownHeaders
    ensures ':' !in name && '\r' !in name && '\n' !in name && name != ""
  {
  }

  /** A valid header is read back from its line. */
  lemma ParseLine(h: Header)
    requires IsValid(h)
    ensures ParseHeader(Line(h)) == Success(h)
  {
    KnownHaveNoColon(h.name);
    Framing.HeaderLineCut(h.name, h.value);
  }

  /** A name outside the known four is refused, whatever the value. */
  lemma UnknownRejected(name: string, value: string)
    requires ':' !in name && name !in KnownHeaders
    ensures ParseHeader(name + ": " + value) == Failure(InvalidHeader)
  {
    Framing.HeaderLineCut(name, value);
  }

  /** Names are compared exactly: a lower-case user-agent is not known. */
  lemma CaseSensitive(value: string)
    ensures ParseHeader("user-agent" + ": " + value) == Failure(InvalidHeader)
  {
    UnknownRejected("user-agent", value);
  }
}
