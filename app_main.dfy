/** The program built on the `server` package (app/main.go): content-encoding negotiation around
    the echo handler, and the routes registered at startup. */
module AppMain {
  import opened Wrappers
  import opened GoStrings
  import opened ServerHeader
  import opened ServerRequest
  import opened ServerResponse
  import opened ServerCore

  /** The gzip writer, as a function of the body: None when writing or closing fails. */
  type Compressor = Bytes -> Option<Bytes>

  const Gzip: string := "gzip"

  /** The request's Accept-Encoding tokens include exactly "gzip". */
  predicate WantsGzip(req: Request)
  {
    AcceptEncoding in req.Headers && req.Headers[AcceptEncoding].Tokens? &&
    Gzip in req.Headers[AcceptEncoding].tokens
  }

  /** The search for the gzip token over the token set. */
  method AcceptsGzip(req: Request) returns (gzipHdr: bool)
    ensures gzipHdr <==> WantsGzip(req)
  {
    gzipHdr := false;
    if AcceptEncoding in req.Headers && req.Headers[AcceptEncoding].Tokens? {
      var enc := req.Headers[AcceptEncoding].tokens;
      var rest := enc;
      while rest != {}
        invariant rest <= enc
        invariant !gzipHdr && Gzip !in enc - rest
        decreases |rest|
      {
        var e :| e in rest;
        if e == Gzip {
          gzipHdr := true;
          break;
        }
        rest := rest - {e};
      }
    }
  }

  /** The response WithGzip returns, given the echo handler's response `st`. */
  function Gzipped(req: Request, st: ResponseState, compress: Compressor): ResponseState
  {
    if !WantsGzip(req) then st
    else match compress(st.body)
      case None => st
      case Some(c) =>
        ResponseState(st.status, st.headers[ContentLength := Values([Itoa(|c|)])][ContentEncoding := Values([Gzip])], c)
  }

  method WithGzip(req: Request, echo: Handler, compress: Compressor) returns (out: ResponseState)
    ensures out == Gzipped(req, echo(req), compress)
  {
    var res := new Response.FromState(echo(req));
    var gzipHdr := AcceptsGzip(req);
    if !gzipHdr {
      return res.State();
    }
    var buf := compress(res.Body);
    if buf.None? {
      return res.State();
    }
    res.SetHeader(ContentLength, Itoa(|buf.value|));
    res.SetHeader(ContentEncoding, Gzip);
    res.SetBody(buf.value);
    out := res.State();
  }

  /** Without the gzip token, or when compression fails, the echo response is returned as is. */
  lemma Uncompressed(req: Request, st: ResponseState, compress: Compressor)
    requires !WantsGzip(req) || compress(st.body).None?
    ensures Gzipped(req, st, compress) == st
  {
  }

  /** After compression: the body is the compressed bytes, Content-Length is their length in
      decimal (so never the length before compression), Content-Encoding is gzip, and the status and
      every other header are the echo handler's. */
  lemma Compressed(req: Request, st: ResponseState, compress: Compressor)
    requires WantsGzip(req) && compress(st.body).Some?
    ensures var res := Gzipped(req, st, compress);
      res.body == compress(st.body).value && res.status == st.status &&
      res.headers[ContentEncoding] == Values([Gzip]) &&
      res.headers[ContentLength].Values? && |res.headers[ContentLength].values| == 1 &&
      Atoi(res.headers[ContentLength].values[0]) == Some(|res.body|) &&
      forall k :: k != ContentLength && k != ContentEncoding ==>
        (k in res.headers <==> k in st.headers) && (k in st.headers ==> res.headers[k] == st.headers[k])
  {
    AtoiItoa(|compress(st.body).value|);
  }

  /** Content-Length and Content-Encoding of a compressed response hold lists, which the type
      assertions of headers.ToString reject; under the corrected writer it can still be written. */
  lemma CompressedBreaksAssertions(req: Request, st: ResponseState, compress: Compressor)
    requires WantsGzip(req) && compress(st.body).Some? && AllRenderable(st.headers)
    ensures var res := Gzipped(req, st, compress);
      !AssertionsHold(ContentLength, res.headers[ContentLength]) && AllRenderable(res.headers)
  {
  }

  /** The routes of `main`; each (path, method) pair is registered once. */
  method Startup(root: Handler, userAgent: Handler, echo: Handler, compress: Compressor,
                 fileGet: Handler, filePost: Handler) returns (s: Server)
    ensures fresh(s) && s.address == "0.0.0.0:4221" && s.maxContentSize == 1024
    ensures s.pathGet == map["/" := root, "/user-agent" := userAgent,
                             "/echo/" := (req => Gzipped(req, echo(req), compress)), "/files/" := fileGet]
    ensures s.pathPost == map["/files/" := filePost]
  {
    s := new Server("0.0.0.0:4221");
    s.RegisterGet("/", root);
    s.RegisterGet("/user-agent", userAgent);
    s.RegisterGet("/echo/", req => Gzipped(req, echo(req), compress));
    s.RegisterGet("/files/", fileGet);
    s.RegisterPost("/files/", filePost);
  }

  /** With the startup tables, a GET whose target extends "/echo/" is answered by the gzip wrapper
      around the echo handler, and any other method gets 405 with Allow: GET and an empty body. */
  lemma EchoRouted(root: Handler, userAgent: Handler, echo: Handler, compress: Compressor,
                   fileGet: Handler, filePost: Handler, req: Request, rest: string)
    requires req.Target == "/echo/" + rest
    ensures var gets := map["/" := root, "/user-agent" := userAgent,
                             "/echo/" := (req => Gzipped(req, echo(req), compress)), "/files/" := fileGet];
      var posts := map["/files/" := filePost];
      (req.Method == MethodGet ==> Respond(gets, posts, req) == Gzipped(req, echo(req), compress)) &&
      (req.Method != MethodGet ==>
        Respond(gets, posts, req) == ResponseState(StatusMethodNotAllowed, map[Allow := Values([MethodGet])], ""))
  {
    var gz: Handler := req => Gzipped(req, echo(req), compress);
    var gets := map["/" := root, "/user-agent" := userAgent, "/echo/" := gz, "/files/" := fileGet];
    var posts := map["/files/" := filePost];
    PrefixRoute("echo", rest);
    assert "/echo/" + rest == "/" + "echo" + "/" + rest;
    assert BasePath(req.Target) == "/echo/";
    assert "/echo/" != "/files/";
    assert "/echo/" in gets && "/echo/" !in posts && gets["/echo/"] == gz;
    assert Join([MethodGet], ", ") == MethodGet;
  }
}
