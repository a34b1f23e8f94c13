/** Responses of the request.go snapshot (app/response.go): a status, a typed header table and a
    body, written out by ToString and by Bytes. The header table and the reason phrases are those
    of the `server` package model. */
module MainResponse {
  import opened GoStrings
  import opened ServerHeader
  import opened ServerResponse
  import opened ServerRequest

  class Response {
    var status: string
    var headers: HeaderMap
    var body: Bytes

    /** newResponse: an empty header table, no status and no body. */
    constructor ()
      ensures status == "" && headers == map[] && body == ""
    {
      status, headers, body := "", map[], "";
    }

    /** setHeader: the value replaces whatever the name held. */
    method SetHeader(header: string, value: HeaderValue)
      modifies this
      ensures headers == old(headers)[header := value]
      ensures status == old(status) && body == old(body)
    {
      headers := headers[header := value];
    }

    method SetStatus(s: string)
      modifies this
      ensures status == s && headers == old(headers) && body == old(body)
    {
      status := s;
    }

    method SetBody(b: Bytes)
      modifies this
      ensures body == b && status == old(status) && headers == old(headers)
    {
      body := b;
    }

    /** ToString: status line, header block, empty line, body, in one format string. */
    method ToString() returns (s: string, ghost order: seq<string>, ghost texts: seq<string>)
      requires status in KnownStatuses && AllRenderable(headers)
      ensures IsRendering(headers, order, texts)
      ensures s == Wire(status, Block(order, texts), body)
    {
      var block;
      block, order, texts := HeadersToString(headers);
      s := Version11 + " " + status + " " + StatusText(status) + CRLF + block + CRLF + body;
    }

    /** Bytes: the head, then the body, joined by CRLF. */
    method Bytes() returns (b: Bytes, ghost order: seq<string>, ghost texts: seq<string>)
      requires status in KnownStatuses && AllRenderable(headers)
      ensures IsRendering(headers, order, texts)
      ensures b == Join([StatusLine(status) + CRLF + Block(order, texts), body], CRLF)
    {
      var block;
      block, order, texts := HeadersToString(headers);
      var head := Version11 + " " + status + " " + StatusText(status) + CRLF + block;
      b := Join([head, body], CRLF);
    }
  }

  /** For the same header order, Bytes and ToString write the same text. */
  lemma BytesIsToString(status: string, block: string, body: Bytes)
    requires status in KnownStatuses
    ensures Join([StatusLine(status) + CRLF + block, body], CRLF) == Wire(status, block, body)
  {
    assert [StatusLine(status) + CRLF + block, body][1..] == [body];
  }
}
