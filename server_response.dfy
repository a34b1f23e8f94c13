/** Responses of the `server` package (app/server/response.go): a mutable status, header table and
    body, and their serialisation to the bytes written on the connection. */
module ServerResponse {
  import opened GoStrings
  import opened ServerHeader
  import Framing
  import opened ServerRequest

  const StatusOK: string := "200"
  const StatusCreated: string := "201"
  const StatusBadRequest: string := "400"
  const StatusForbidden: string := "403"
  const StatusNotFound: string := "404"
  const StatusMethodNotAllowed: string := "405"
  const StatusLengthRequired: string := "411"
  const StatusContentTooLarge: string := "413"
  const StatusInternalServerError: string := "500"

  /** The statuses statusText knows; any other is a fatal error. */
  const KnownStatuses: set<string> := {
    StatusOK, StatusCreated, StatusBadRequest, StatusForbidden, StatusNotFound,
    StatusMethodNotAllowed, StatusLengthRequired, StatusContentTooLarge, StatusInternalServerError
  }

  /** statusText: the reason phrase of a status (RFC 9110 section 15). */
  function StatusText(status: string): (reason: string)
    requires status in KnownStatuses
    ensures reason != ""
  {
    if status == StatusOK then "OK"
    else if status == StatusCreated then "Created"
    else if status == StatusBadRequest then "Bad Request"
    else if status == StatusForbidden then "Forbidden"
    else if status == StatusNotFound then "Not Found"
    else if status == StatusMethodNotAllowed then "Method Not Allowed"
    else if status == StatusLengthRequired then "Length Required"
    else if status == StatusContentTooLarge then "Content Too Large"
    else "Internal Server Error"
  }

  /** No reason phrase breaks the status line. */
  lemma StatusTextPlain(status: string)
    requires status in KnownStatuses
    ensures Framing.PlainLine(StatusText(status))
  {
    ShortReasonsPlain();
    ClientReasonsPlain();
    LongReasonsPlain();
  }

  lemma ShortReasonsPlain()
    ensures Framing.PlainLine("OK") && Framing.PlainLine("Created") && Framing.PlainLine("Bad Request")
    ensures Framing.PlainLine("Forbidden") && Framing.PlainLine("Not Found")
  {
  }

  lemma ClientReasonsPlain()
    ensures Framing.PlainLine("Method Not Allowed") && Framing.PlainLine("Length Required")
  {
  }

  lemma LongReasonsPlain()
    ensures Framing.PlainLine("Content Too Large") && Framing.PlainLine("Internal Server Error")
  {
  }

  /** The first line of a response. */
  function StatusLine(status: string): string
    requires status in KnownStatuses
  {
    Version11 + " " + status + " " + StatusText(status)
  }

  /** The bytes of a response: status line, header block, empty line, then the body unchanged. */
  function Wire(status: string, block: string, body: Bytes): string
    requires status in KnownStatuses
  {
    StatusLine(status) + CRLF + block + CRLF + body
  }

  /** The value a handler hands back: the three fields of a Response. */
  datatype ResponseState = ResponseState(status: string, headers: HeaderMap, body: Bytes)

  class Response {
    var status: string
    var headers: HeaderMap
    var Body: Bytes

    function State(): ResponseState
      reads this
    {
      ResponseState(status, headers, Body)
    }

    /** NewResponse: no status, no headers, no body. */
    constructor ()
      ensures status == "" && headers == map[] && Body == ""
    {
      status, headers, Body := "", map[], "";
    }

    /** The response a handler returned, taken over to be changed further. */
    constructor FromState(st: ResponseState)
      ensures State() == st
    {
      status, headers, Body := st.status, st.headers, st.body;
    }

    /** AddHeader: append `value` to the list kept for `header`, starting a list when absent. */
    method AddHeader(header: string, value: string)
      requires header in headers ==> headers[header].Values?
      modifies this
      ensures header in old(headers) ==> headers == old(headers)[header := Values(old(headers)[header].values + [value])]
      ensures header !in old(headers) ==> headers == old(headers)[header := Values([value])]
      ensures status == old(status) && Body == old(Body)
    {
      var val := if header in headers then headers[header].values else [];
      assert header !in headers ==> val + [value] == [value];
      headers := headers[header := Values(val + [value])];
    }

    /** SetHeader: replace whatever `header` held by a one-element list. */
    method SetHeader(header: string, value: string)
      modifies this
      ensures headers == old(headers)[header := Values([value])]
      ensures status == old(status) && Body == old(Body)
    {
      headers := headers[header := Values([value])];
    }

    method SetStatus(s: string)
      modifies this
      ensures status == s && headers == old(headers) && Body == old(Body)
    {
      status := s;
    }

    method SetBody(body: Bytes)
      modifies this
      ensures Body == body && status == old(status) && headers == old(headers)
    {
      Body := body;
    }

    /** Bytes: the wire form, with the header block in the order map iteration gives. */
    method Bytes() returns (b: Bytes, ghost order: seq<string>, ghost texts: seq<string>)
      requires status in KnownStatuses && AllRenderable(headers)
      ensures IsRendering(headers, order, texts)
      ensures b == Wire(status, Block(order, texts), Body)
    {
      var block;
      block, order, texts := HeadersToString(headers);
      var head := Version11 + " " + status + " " + StatusText(status) + CRLF + block;
      b := head + CRLF + Body;
    }
  }

  /** One header line without its CRLF. */
  function HeaderLines(order: seq<string>, texts: seq<string>): (ls: seq<string>)
    requires |order| == |texts|
    ensures |ls| == |order|
  {
    if order == [] then []
    else HeaderLines(order[..|order| - 1], texts[..|texts| - 1]) + [order[|order| - 1] + ": " + texts[|texts| - 1]]
  }

  /** The header block ToString writes is the header lines, each followed by CRLF. */
  lemma {:induction false} BlockIsLines(order: seq<string>, texts: seq<string>)
    requires |order| == |texts|
    ensures Block(order, texts) == Framing.Lines(HeaderLines(order, texts))
    decreases |order|
  {
    if order != [] {
      BlockIsLines(order[..|order| - 1], texts[..|texts| - 1]);
    }
  }

  /** A reader of the bytes finds the body right after the first empty line, and the head splits
      back into the status line and the header lines, provided no header name or text holds a
      carriage return or line feed. */
  lemma ReadBack(status: string, order: seq<string>, texts: seq<string>, body: Bytes)
    requires status in KnownStatuses
    requires |order| == |texts|
    requires forall i :: 0 <= i < |order| ==> Framing.PlainLine(order[i]) && '\r' !in texts[i] && '\n' !in texts[i]
    ensures var c := Cut(Wire(status, Block(order, texts), body), Framing.BlankLine);
      c.found && c.after == body && Split(c.before, CRLF) == [StatusLine(status)] + HeaderLines(order, texts)
  {
    var start := StatusLine(status);
    var hl := HeaderLines(order, texts);
    var lines := [start] + hl;
    StatusLinePlain(status);
    PlainHeaderLines(order, texts);
    assert Framing.PlainLines(lines) by {
      forall i | 0 <= i < |lines| ensures Framing.PlainLine(lines[i]) {
        if i > 0 { assert lines[i] == hl[i - 1]; }
      }
    }
    BlockIsLines(order, texts);
    Framing.ReadMessage(start, hl, body);
  }

  lemma StatusLinePlain(status: string)
    requires status in KnownStatuses
    ensures Framing.PlainLine(StatusLine(status))
  {
    var r := StatusText(status);
    StatusTextPlain(status);
    KnownStatusPlain(status);
    assert StatusLine(status) == Version11 + " " + status + " " + r;
  }

  lemma KnownStatusPlain(status: string)
    requires status in KnownStatuses
    ensures Framing.PlainLine(status)
  {
  }


  lemma {:induction false} PlainHeaderLines(order: seq<string>, texts: seq<string>)
    requires |order| == |texts|
    requires forall i :: 0 <= i < |order| ==> Framing.PlainLine(order[i]) && '\r' !in texts[i] && '\n' !in texts[i]
    ensures Framing.PlainLines(HeaderLines(order, texts))
    decreases |order|
  {
    if order != [] {
      PlainHeaderLines(order[..|order| - 1], texts[..|texts| - 1]);
    }
  }
}
