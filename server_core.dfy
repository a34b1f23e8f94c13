/** The server of the `server` package (app/server/server.go): two routing tables, one per method,
    and the decision `handle` takes for a parsed request. */
module ServerCore {
  import opened GoStrings
  import opened ServerHeader
  import opened ServerRequest
  import opened ServerResponse

  /** PathHandler, with the response it builds given by value. */
  type Handler = Request -> ResponseState

  /** pathBase as written: the text up to and including the second '/', or the whole target when
      there is none. `Target[1:]` panics when the target is empty. */
  function BasePathAsWritten(target: string): (base: string)
    requires target != ""
    ensures base <= target
    ensures '/' !in target[1..] ==> base == target
    ensures '/' in target[1..] ==> 2 <= |base| && base[|base| - 1] == '/' && '/' !in base[1..|base| - 1]
  {
    var sl := Index(target[1..], "/");
    if sl != -1 then
      assert target[1..][sl..sl + 1] == "/";
      assert target[1..][sl] == '/';
      assert '/' !in target[1..sl + 1] by {
        forall j | 0 <= j < sl ensures target[1..][j] != '/' {
          assert !OccursAt(target[1..], "/", j);
          assert target[1..][j..j + 1] == [target[1..][j]];
        }
      }
      target[..sl + 2]
    else
      FreeChar(target[1..], '/');
      target
  }

  /** pathBase with the empty target, which the parser lets through, mapped to the empty path. */
  function BasePath(target: string): (base: string)
    ensures target != "" ==> base == BasePathAsWritten(target)
    ensures target == "" ==> base == ""
  {
    if target == "" then "" else BasePathAsWritten(target)
  }

  /** A path registered with a trailing slash serves every target that extends it. */
  lemma PrefixRoute(segment: string, rest: string)
    requires '/' !in segment
    ensures BasePath("/" + segment + "/" + rest) == "/" + segment + "/"
  {
    var p := "/" + segment + "/";
    var t := p + rest;
    assert t[1..][|segment|] == '/';
    var b := BasePath(t);
    assert b <= t && b[|b| - 1] == '/' && '/' !in b[1..|b| - 1];
    assert |b| == |p|;
  }

  /** A path with no second '/' is only served by an exact match. */
  lemma ExactRoute(path: string)
    requires path != [] && '/' !in path[1..]
    ensures BasePath(path) == path
  {
  }

  lemma FilesBasePath()
    ensures BasePath("/files/a/b") == "/files/"
  {
    var segment, rest := "files", "a/b";
    assert '/' !in segment by { assert segment == ['f'] + "iles"; }
    assert "/files/a/b" == "/" + segment + "/" + rest by { assert "/files/a/b" == "/files/" + rest; }
    PrefixRoute(segment, rest);
  }

  lemma EchoBasePath()
    ensures BasePath("/echo") == "/echo"
  {
    ExactRoute("/echo");
  }

  /** What `handle` does once it knows whether the base path has a GET and a POST entry. */
  datatype Decision = NotFound | NotAllowed(allow: seq<string>) | RunGet | RunPost

  /** The if-chain of `handle`. Its last branch is fatal; the chain never reaches it. */
  function Decide(gok: bool, pok: bool, verb: string): (d: Decision)
    ensures d == NotFound <==> !gok && !pok
    ensures d == RunGet <==> gok && verb == MethodGet
    ensures d == RunPost <==> pok && verb == MethodPost
    ensures d.NotAllowed? <==> (gok || pok) && !(gok && verb == MethodGet) && !(pok && verb == MethodPost)
    ensures d.NotAllowed? ==> d.allow == (if gok then [MethodGet] else []) + (if pok then [MethodPost] else [])
  {
    if !gok && !pok then NotFound
    else if (gok && verb != MethodGet && !pok) || (!gok && pok && verb != MethodPost)
         || (gok && verb != MethodGet && pok && verb != MethodPost) then
      var allowed := if gok then [MethodGet] else [];
      var allowed := if pok then allowed + [MethodPost] else allowed;
      NotAllowed(allowed)
    else if gok && verb == MethodGet then RunGet
    else if pok && verb == MethodPost then RunPost
    else assert false; NotFound
  }

  /** The response `handle` writes for a request, given the two tables. The base path is the
      corrected one: an empty target, where `handle` panics, has the empty base path. */
  function Respond(gets: map<string, Handler>, posts: map<string, Handler>, req: Request): ResponseState
  {
    var base := BasePath(req.Target);
    match Decide(base in gets, base in posts, req.Method)
    case NotFound => ResponseState(StatusNotFound, map[], "")
    case NotAllowed(allow) => ResponseState(StatusMethodNotAllowed, map[Allow := Values([Join(allow, ", ")])], "")
    case RunGet => gets[base](req)
    case RunPost => posts[base](req)
  }

  class Server {
    /** Maximum content size of a request in bytes. */
    const maxContentSize: int
    const address: string
    const version: string
    var pathGet: map<string, Handler>
    var pathPost: map<string, Handler>

    /** NewServer. */
    constructor (address: string)
      ensures maxContentSize == 1024 && this.address == address && version == Version11
      ensures pathGet == map[] && pathPost == map[]
    {
      maxContentSize, this.address, version := 1024, address, Version11;
      pathGet, pathPost := map[], map[];
    }

    /** A path registered twice is a fatal configuration error. */
    method RegisterGet(path: string, handler: Handler)
      requires path !in pathGet
      modifies this
      ensures pathGet == old(pathGet)[path := handler] && pathPost == old(pathPost)
    {
      pathGet := pathGet[path := handler];
    }

    method RegisterPost(path: string, handler: Handler)
      requires path !in pathPost
      modifies this
      ensures pathPost == old(pathPost)[path := handler] && pathGet == old(pathGet)
    {
      pathPost := pathPost[path := handler];
    }

    /** The routing part of `handle`, for a request already parsed. */
    method Handle(req: Request) returns (out: ResponseState)
      ensures out == Respond(pathGet, pathPost, req)
    {
      var res := new Response();
      var pathBase := req.Target;
      if req.Target != "" {
        var sl := Index(req.Target[1..], "/");
        if sl != -1 {
          pathBase := req.Target[..sl + 2];
        }
      }
      var gok, pok := pathBase in pathGet, pathBase in pathPost;
      if !gok && !pok {
        res.SetStatus(StatusNotFound);
      } else if (gok && req.Method != MethodGet && !pok) || (!gok && pok && req.Method != MethodPost)
             || (gok && req.Method != MethodGet && pok && req.Method != MethodPost) {
        res.SetStatus(StatusMethodNotAllowed);
        var allowedMethods := [];
        if gok {
          allowedMethods := allowedMethods + [MethodGet];
        }
        if pok {
          allowedMethods := allowedMethods + [MethodPost];
        }
        res.SetHeader(Allow, Join(allowedMethods, ", "));
      } else if gok && req.Method == MethodGet {
        out := pathGet[pathBase](req);
        return;
      } else if pok && req.Method == MethodPost {
        out := pathPost[pathBase](req);
        return;
      } else {
        assert false;
      }
      out := res.State();
    }
  }

  /** An unregistered base path gives 404 with no headers and no body, and no handler runs. */
  lemma NotFoundResponse(gets: map<string, Handler>, posts: map<string, Handler>, req: Request)
    requires BasePath(req.Target) !in gets && BasePath(req.Target) !in posts
    ensures Respond(gets, posts, req) == ResponseState(StatusNotFound, map[], "")
  {
  }

  /** A GET to a path with a GET entry, or a POST to one with a POST entry, is what its handler
      returns. */
  lemma HandlerRuns(gets: map<string, Handler>, posts: map<string, Handler>, req: Request)
    ensures req.Method == MethodGet && BasePath(req.Target) in gets ==>
      Respond(gets, posts, req) == gets[BasePath(req.Target)](req)
    ensures req.Method == MethodPost && BasePath(req.Target) in posts ==>
      Respond(gets, posts, req) == posts[BasePath(req.Target)](req)
  {
  }

  /** For a request the parser accepted, 405 happens exactly when the path is registered for the
      other method only, and Allow names that method. */
  lemma NotAllowedForParsed(gets: map<string, Handler>, posts: map<string, Handler>, req: Request)
    requires req.Method == MethodGet || req.Method == MethodPost
    ensures var base := BasePath(req.Target);
      var d := Decide(base in gets, base in posts, req.Method);
      d.NotAllowed? <==> ((req.Method == MethodGet && base !in gets && base in posts) ||
                          (req.Method == MethodPost && base in gets && base !in posts))
    ensures var base := BasePath(req.Target);
      var d := Decide(base in gets, base in posts, req.Method);
      d.NotAllowed? ==> d.allow == [if req.Method == MethodGet then MethodPost else MethodGet]
  {
  }

  /** The Allow header of a 405: GET before POST, joined by ", ". */
  lemma AllowHeader(gets: map<string, Handler>, posts: map<string, Handler>, req: Request)
    requires Decide(BasePath(req.Target) in gets, BasePath(req.Target) in posts, req.Method).NotAllowed?
    ensures var base := BasePath(req.Target);
      var res := Respond(gets, posts, req);
      res.status == StatusMethodNotAllowed && res.body == "" && res.headers.Keys == {Allow} &&
      res.headers[Allow] == Values([if base in gets && base in posts then "GET, POST"
                                    else if base in gets then MethodGet else MethodPost])
  {
    var base := BasePath(req.Target);
    if base in gets && base in posts {
      assert [MethodGet, MethodPost][1..] == [MethodPost];
      assert Join([MethodGet, MethodPost], ", ") == "GET, POST";
    }
  }

  /** The 405 response cannot be written by the type assertions of headers.ToString. */
  lemma NotAllowedBreaksAssertions(gets: map<string, Handler>, posts: map<string, Handler>, req: Request)
    requires Decide(BasePath(req.Target) in gets, BasePath(req.Target) in posts, req.Method).NotAllowed?
    ensures var res := Respond(gets, posts, req);
      Allow in res.headers && !AssertionsHold(Allow, res.headers[Allow]) && AllRenderable(res.headers)
  {
  }

  /** The empty target: the as-written base path cannot be computed, the total one yields a path no
      table holds when every registered path starts with '/', so the answer is 404. */
  lemma EmptyTargetNotFound(gets: map<string, Handler>, posts: map<string, Handler>, req: Request)
    requires forall p :: p in gets ==> p != ""
    requires forall p :: p in posts ==> p != ""
    requires req.Target == ""
    ensures Respond(gets, posts, req) == ResponseState(StatusNotFound, map[], "")
  {
  }
}
