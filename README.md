# A verified model of a toy HTTP/1.1 server

The server answers a few fixed routes: `/`, `/echo/<text>`, `/user-agent` and `/files/<name>`.
The repository holds four snapshots of the same design side by side, and each becomes its own group of
Dafny modules:

- **the `server` package** (app/server/, app/main.go):
  - `ServerHeader`: the typed header table, its parser and its writer;
  - `ServerRequest`: request parsing;
  - `ServerResponse`: the mutable `Response` and its wire form;
  - `ServerCore`: the `Server` with its GET and POST routing tables, and the 404/405/dispatch decision of `handle`;
  - `AppMain`: gzip negotiation around the echo handler, and the startup routes.
- **the request.go snapshot** (app/header.go, app/request.go, app/response.go): `MainHeader`, `MainRequest`, `MainResponse`.
- **the types.go snapshot** (app/types.go, app/parsers.go): `Types`, `Parsers`.
- **the oldest snapshot** (app/server.go): `Legacy`.

Shared modules:

- `GoStrings` models the Go library calls the code relies on, with byte strings as `seq<char>`:
  - `strings.Index`, `Cut`, `Split`, `Join` and an ASCII `TrimSpace`;
  - `strconv.Atoi` and `Itoa`.
- `Framing` holds the facts about the HTTP/1.1 message layout (section 2.1 of RFC 9112) that every
  snapshot's round trip uses: head lines joined by CRLF, an empty line, then the body.
- `Wrappers` defines `Option` and `Result`.

Modelling conventions:

- Fatal exits (`log.Fatalln`, failed type assertions, slice panics) become preconditions, except where
  "## Findings" records a correction that the rest of the model uses instead.
- Error returns become `Result` values.
- Structs the code updates in place become classes with `modifies` clauses: `Response`, `Server`, `httpResponse`, `response`.
- Loops become methods, each proved equal to a specification function.
- Properties are proved about those specification functions.
- Go map iteration order is unspecified. Where it shows in the output, the writing methods pick the next key
  nondeterministically, return the order they used as a ghost value, and state that it lists every key exactly once.

`app/main.go:63-67` calls `s.Register(path, method, handler)`, but the server package only defines
`RegisterGet` and `RegisterPost`. The startup model uses those two.

`app/main.go:22` ranges over the Accept-Encoding value, whose static type is `any`, so that loop
does not compile either; over a `map[string]bool` it would bind `e` to the bool, not to the token.
`AppMain.AcceptsGzip` models what the loop evidently means: a search for the key `gzip` in the token set.

## Model

| member | source | states |
|---|---|---|
| GoStrings.Index | app/server/server.go:106 | `strings.Index`: -1 exactly when the separator does not occur; otherwise the first position where it occurs |
| GoStrings.Cut | app/server/request.go:21 | `strings.Cut`: when found, the text is before + sep + after, and sep does not occur earlier; when not found, before is the whole text and after is empty |
| GoStrings.Split | app/server/request.go:24 | `strings.Split`: at least one part; joining the parts with the separator gives the text back; no part contains the separator |
| GoStrings.SplitJoin | app/server/request.go:29 | splitting a join gives the parts back, when no part contains the separator's first character |
| GoStrings.TrimSpaceShape | app/server/header.go:54 | the result is a substring of the input, has no white space at either end, and only white space was removed |
| GoStrings.AtoiItoa | app/server/header.go:63-69 | `Atoi(Itoa(n)) == Some(n)` for every integer |
| Framing.ReadMessage | app/server/request.go:21-24 | for start line + CRLF + header lines + CRLF + body: the first empty line is where the body starts, and the head splits back into the start line and the header lines |
| ServerHeader.TrimmedSet | app/server/header.go:52-55 | the token set holds exactly the trimmed comma-separated pieces |
| ServerHeader.Entry | app/server/header.go:50-75 | the switch on the name: anything it keeps is stored under that same name, which is one of the six recognised ones |
| ServerHeader.LineEntry | app/server/header.go:44-75 | a line without `": "` contributes nothing; a kept line has a recognised name, and that name is the text before the first `": "` |
| ServerHeader.HeadersOf | app/server/header.go:41-78 | every key is one of the six recognised names, and its value has the dynamic type the writer expects (int for Content-Length, token set for Accept-Encoding, string otherwise) |
| ServerHeader.ParseTokens | app/server/header.go:52-55 | the inner loop builds exactly the set of trimmed comma-separated tokens |
| ServerHeader.ParseHeaders | app/server/header.go:41-78 | the loop with its switch computes exactly `HeadersOf` of the lines |
| ServerHeader.SkippedLine | app/server/header.go:44-48 | a skipped line leaves the result as if it were absent, and the lines after it are still parsed |
| ServerHeader.UncutLineSkipped | app/server/header.go:44-48 | a line with no `": "` is skipped |
| ServerHeader.BadContentLengthSkipped | app/server/header.go:63-69 | a Content-Length value that Atoi rejects leaves the table unchanged |
| ServerHeader.LastWriteWins | app/server/header.go:56-71 | when a name is accepted twice, the later value is the one kept |
| ServerHeader.KeyPresent | app/server/header.go:50-75 | a name is a key exactly when some line is accepted under that name |
| ServerHeader.ValueMayHoldSeparator | app/server/header.go:44 | the value is everything after the first `": "`, so it may itself contain `": "` |
| ServerHeader.AcceptEncodingExample | app/server/header.go:51-56 | `Accept-Encoding: gzip, br` gives the token set {gzip, br} |
| ServerHeader.JoinTokens | app/server/header.go:26-30 | the Accept-Encoding text is the tokens in some order, each once, joined by `","` |
| ServerHeader.ValueText | app/server/header.go:22-33 | each value is written by its dynamic type: an int in decimal, tokens joined by `","`, a string as is, a list joined by `", "` |
| ServerHeader.HeadersToString | app/server/header.go:19-37 | the output is one `Name: value\r\n` line per key; the order lists every key exactly once, and each text is how that key's value is written |
| ServerHeader.EnumerationSize | app/server/header.go:21 | an order that lists every key exactly once is as long as the key set, so there are as many lines as keys |
| ServerRequest.ParseRequest | app/server/request.go:15-45 | a successful parse has method GET or POST |
| ServerRequest.ParsedBody | app/server/request.go:21-22 | the body is everything after the first `\r\n\r\n`, and empty when there is none |
| ServerRequest.ParsedTarget | app/server/request.go:35 | the target is only the middle word: it holds no space and is otherwise unchecked |
| ServerRequest.ParseAssembled | app/server/request.go:21-32 | for a laid-out message, the outcome depends only on the start line's words, the header table of the lines, and the body |
| ServerRequest.ParseWellFormed | app/server/request.go:15-45 | a well-formed GET or POST parses to its method, target, the header table of its lines, and its body |
| ServerRequest.HeaderLinesNeverReject | app/server/request.go:24-27 | header lines never decide whether a request is accepted |
| ServerRequest.StartLineOnly | app/server/request.go:24-27 | with only a start line, the header table is empty |
| ServerRequest.EmptyTargetAccepted | app/server/request.go:35 | `GET  HTTP/1.1` (two spaces) is accepted, with an empty target |
| ServerRequest.WordCountChecked | app/server/request.go:29-32 | a start line that does not split into exactly three words is "error parsing head", whatever the header lines |
| ServerRequest.DoubleSpaceRejected | app/server/request.go:29-32 | a doubled space before the target gives four words, which is rejected |
| ServerRequest.VersionCheckedFirst | app/server/request.go:36-39 | a version other than HTTP/1.1 is rejected as a bad version, even when the method is also wrong |
| ServerRequest.MethodChecked | app/server/request.go:40-42 | with the right version, any method other than GET and POST is rejected |
| ServerResponse.StatusText | app/server/response.go:61-86 | a reason is defined only for the nine statuses (the precondition); each reason is non-empty |
| ServerResponse.StatusTextPlain | app/server/response.go:61-86 | each of the nine reasons is free of carriage returns and line feeds, so the status line is one line |
| ServerResponse.Response.constructor | app/server/response.go:29-33 | `NewResponse`: empty status, empty header map, empty body |
| ServerResponse.Response.AddHeader | app/server/response.go:35-41 | appends the value to the end of the name's list, or starts a one-element list; no other name or field changes |
| ServerResponse.Response.SetHeader | app/server/response.go:43-45 | the name now holds the one-element list [value]; no other name or field changes |
| ServerResponse.Response.SetStatus | app/server/response.go:47-49 | only the status changes |
| ServerResponse.Response.SetBody | app/server/response.go:51-53 | only the body changes |
| ServerResponse.Response.Bytes | app/server/response.go:55-59 | `HTTP/1.1 <status> <reason>\r\n` + one line per header (order as in `HeadersToString`) + `\r\n` + the body, unchanged |
| ServerResponse.ReadBack | app/server/response.go:55-59 | a reader of these bytes finds the body right after the first empty line, and the head splits into the status line and one line per header |
| ServerCore.BasePathAsWritten | app/server/server.go:105-109 | defined only for a non-empty target. The result is a prefix of the target: the whole target when nothing after the first character is '/', otherwise a prefix that ends in '/' and has no other '/' after the first character |
| ServerCore.BasePath | app/server/server.go:105-109 | the same as written for a non-empty target; the empty path for the empty target |
| ServerCore.PrefixRoute | app/server/server.go:102-110 | any target under `/seg/` has base path `/seg/`, so a path registered with a trailing slash serves every extension of it |
| ServerCore.ExactRoute | app/server/server.go:102-110 | a target with no second '/' is its own base path, so it is served only by an exact match |
| ServerCore.FilesBasePath | app/server/server.go:105-109 | `/files/a/b` has base path `/files/` |
| ServerCore.EchoBasePath | app/server/server.go:105-109 | `/echo` has base path `/echo` |
| ServerCore.Decide | app/server/server.go:115-135 | 404 exactly when neither table has the path; the GET handler exactly for a GET with a GET entry; the POST handler exactly for a POST with a POST entry; 405 in every other case, with Allow listing GET (if registered) before POST (if registered); the fatal last branch is never reached |
| ServerCore.Respond | app/server/server.go:115-135 | the response `handle` writes: 404 with nothing else, 405 with the Allow list, or the handler's own response, as `Decide` chooses; `NotFoundResponse`, `HandlerRuns` and `AllowHeader` state each case |
| ServerCore.Server.constructor | app/server/server.go:28-37 | `NewServer`: maxContentSize 1024, the given address, version HTTP/1.1, both tables empty |
| ServerCore.Server.RegisterGet | app/server/server.go:62-68 | registering a path twice is fatal (the precondition); afterwards the GET table maps the path to the handler, and the POST table is unchanged |
| ServerCore.Server.RegisterPost | app/server/server.go:70-76 | the same, for the POST table |
| ServerCore.Server.Handle | app/server/server.go:98-135 | the response is the one `Respond` gives for the two tables |
| ServerCore.NotFoundResponse | app/server/server.go:115-116 | an unregistered base path gives status 404, no headers and no body |
| ServerCore.HandlerRuns | app/server/server.go:129-132 | a GET with a GET entry, or a POST with a POST entry, gets exactly what its handler returns |
| ServerCore.NotAllowedForParsed | app/server/server.go:117-128 | for a parsed request (GET or POST), 405 happens exactly when the path is registered only for the other method, and Allow names that method |
| ServerCore.AllowHeader | app/server/server.go:117-128 | a 405 response has an empty body and only the Allow header, whose text is `GET`, `POST` or `GET, POST` |
| ServerCore.NotAllowedBreaksAssertions | app/server/server.go:128 | the 405 response's Allow value is a list, which the type assertions of `headers.ToString` reject; the corrected writer can write it |
| ServerCore.EmptyTargetNotFound | app/server/server.go:105-116 | with the corrected base path, an empty target gets 404 whenever every registered path is non-empty |
| AppMain.AcceptsGzip | app/main.go:20-28 | the search finds a token exactly when Accept-Encoding is present and its token set contains exactly `gzip` |
| AppMain.WithGzip | app/main.go:17-49 | the response is `Gzipped` of the echo handler's response |
| AppMain.Gzipped | app/main.go:29-48 | the echo response, replaced by its compressed form only when the request asked for gzip and compression succeeded; `Uncompressed` and `Compressed` state both cases |
| AppMain.Uncompressed | app/main.go:29-43 | without the gzip token, or when compression fails, the echo response is returned unchanged |
| AppMain.Compressed | app/main.go:45-47 | after compression: the body is the compressed bytes; Content-Length reads back as their length, not the length before compression; Content-Encoding is gzip; the status and every other header are unchanged |
| AppMain.CompressedBreaksAssertions | app/main.go:45-46 | a compressed response's Content-Length is a list, which the type assertions of `headers.ToString` reject; it stays writable under the corrected writer |
| AppMain.Startup | app/main.go:61-67 | registers `/` GET, `/user-agent` GET, `/echo/` GET (the gzip wrapper), and `/files/` GET and POST; since each registration's precondition holds, no (path, method) pair repeats |
| AppMain.EchoRouted | app/main.go:65 | with the startup tables, a GET to any target under `/echo/` is answered by the gzip wrapper; any other method gets status 405, the single header `Allow: GET` and an empty body |
| MainHeader.ParseHeader | app/header.go:46-59 | fails with "invalid header" unless the line has `": "` and the text before it is a known name (compared case-sensitively); on success the header is valid and its line is the input |
| MainHeader.IsValid | app/header.go:35-40 | a header is valid exactly when its name is one of the four known names |
| MainHeader.ToString | app/header.go:42-44 | the text ends in CRLF, and for a valid header the line before it parses back to the header |
| MainHeader.ParseLine | app/header.go:42-58 | a valid header is read back from its `name: value` line |
| MainHeader.UnknownRejected | app/header.go:53-56 | a name outside the four known ones is refused, whatever the value |
| MainHeader.CaseSensitive | app/header.go:16-21 | `user-agent` in lower case is not a known name |
| MainRequest.IsValid | app/request.go:17-31 | true exactly when the version is HTTP/1.1, the method is GET or POST, and every header is valid; the target is not checked |
| MainRequest.ToString | app/request.go:33-39 | start line + one `name: value\r\n` per header, in order + `\r\n` + body |
| MainRequest.Header | app/request.go:41-48 | returns the value of the first header with that name; fails with "header not found" exactly when none has it |
| MainRequest.Kept | app/request.go:74-83 | every kept header is valid, and there are no more headers than lines |
| MainRequest.Parse | app/request.go:58-90 | success implies a valid request; the only errors are "malformed request" and "invalid request" |
| MainRequest.ParseRequest | app/request.go:58-90 | the loop computes exactly `Parse` |
| MainRequest.KeptAppend | app/request.go:74-83 | parsing header lines part by part gives the same list, so kept headers stay in input order and refused lines contribute nothing |
| MainRequest.KeptLines | app/request.go:74-83 | the lines written for valid headers are all kept, in order, and give the headers back |
| MainRequest.ParseLaidOut | app/request.go:58-90 | a message laid out as start line, header lines, empty line and body parses as its start line's words, the headers kept from its lines, and its body |
| MainRequest.InvalidFromStartLine | app/request.go:85-87 | "invalid request" happens exactly when the start line has three words and a wrong version or method |
| MainRequest.ParsedBody | app/request.go:62-63 | the body is the text after the first `\r\n\r\n` |
| MainRequest.MalformedStartLine | app/request.go:67-70 | a start line that does not split into three words is "malformed request", whatever the header lines |
| MainRequest.RoundTrip | app/request.go:33-39 | a valid request is parsed back from its `ToString` text, when the target has no space or line break and the header values have no line break |
| MainResponse.Response.constructor | app/response.go:29-33 | `newResponse`: empty header map, status and body |
| MainResponse.Response.SetHeader | app/response.go:35-37 | the value replaces whatever the name held; nothing else changes |
| MainResponse.Response.SetStatus | app/response.go:39-41 | only the status changes |
| MainResponse.Response.SetBody | app/response.go:43-45 | only the body changes |
| MainResponse.Response.ToString | app/response.go:47-49 | status line with the reason, the header lines (order as in `HeadersToString`), an empty line, the body |
| MainResponse.Response.Bytes | app/response.go:51-55 | the head and the body joined by CRLF |
| MainResponse.BytesIsToString | app/response.go:47-55 | for the same header order, `Bytes` and `ToString` give the same text |
| Types.IsValid | app/types.go:92-105 | true exactly when the start line is valid (HTTP/1.1, GET or POST) and every header name is one of the four |
| Types.HeaderIsValid | app/types.go:49-56 | a header is valid exactly when its name is Allow, Content-Length, Content-Type or User-Agent; the value is not checked |
| Types.HeaderToString | app/types.go:58-60 | `name: value` + CRLF; `Parsers.ParseHeaderLine` reads a valid header back from it |
| Types.StartLineIsValid | app/types.go:68-80 | valid exactly when the version is HTTP/1.1 and the method GET or POST; the target is not checked |
| Types.AppendHeaders | app/types.go:107-115 | the loop appends one `name: value\r\n` per header, in order |
| Types.RequestToString | app/types.go:107-115 | start line + header lines in order + `\r\n` + body |
| Types.Header | app/types.go:117-124 | the value of the first header with that name; fails with "header not found" exactly when none has it |
| Types.NewStatusLine | app/types.go:140-164 | any status outside 200, 201, 404, 405 and 500 is fatal (the precondition); otherwise version HTTP/1.1, the given code, and the same reason the server package uses |
| Types.HttpResponse.constructor | app/types.go:170-174 | the zero response: empty status line, no headers, empty body |
| Types.HttpResponse.SetHeader | app/types.go:176-178 | appends at the end; earlier headers, including ones with the same name, stay |
| Types.HttpResponse.SetStatus | app/types.go:180-182 | the status line becomes `newStatusLine(status)`; nothing else changes |
| Types.HttpResponse.SetBody | app/types.go:184-186 | only the body changes |
| Types.HttpResponse.ToString | app/types.go:188-196 | status line + header lines in insertion order + `\r\n` + body |
| Types.ResponseReadBack | app/types.go:188-196 | a reader finds the body after the first empty line, and the headers in the order they were set |
| Parsers.ParseHeader | app/parsers.go:8-21 | fails with "invalid header" unless the line has `": "` and the name is valid; on success the header is valid and its line is the input |
| Parsers.ParseHeaderLine | app/parsers.go:10-20 | a valid header is read back from its line |
| Parsers.NoSeparatorRejected | app/parsers.go:10-13 | a line without `": "` is refused with "invalid header", whatever else it holds |
| Parsers.Kept | app/parsers.go:39-48 | every kept header is valid |
| Parsers.Parse | app/parsers.go:23-55 | success implies a valid request (HTTP/1.1, GET or POST, valid headers); the only errors are "malformed request" and "invalid request" |
| Parsers.ParseRequest | app/parsers.go:23-55 | the loop computes exactly `Parse` |
| Parsers.KeptAppend | app/parsers.go:39-48 | invalid header lines are skipped, and kept headers stay in order |
| Parsers.KeptLines | app/parsers.go:39-48 | the lines written for valid headers are all kept, in order, and give the headers back |
| Parsers.ParsedBody | app/parsers.go:26-28 | the body is the text after the first `\r\n\r\n`, and the text is head + `\r\n\r\n` + body when there is one |
| Parsers.ParseLaidOut | app/parsers.go:23-55 | a message laid out as start line, header lines, empty line and body parses as its start line's words, the headers kept from its lines, and its body |
| Parsers.InvalidFromStartLine | app/parsers.go:50-52 | "invalid request" happens exactly when the three-word start line is invalid |
| Parsers.MalformedStartLine | app/parsers.go:32-35 | a start line that does not split into three words is "malformed request" |
| Parsers.RoundTrip | app/parsers.go:23-55 | a valid request is parsed back from its `ToString` text (app/types.go:107-115), when the target has no space or line break and the header values have no line break |
| Legacy.ParseHeader | app/server.go:69-80 | accepts only Content-Length, Content-Type and User-Agent, and requires `": "`; on success its line is the input |
| Legacy.AllowRejected | app/server.go:74-79 | Allow is not accepted in this snapshot |
| Legacy.ParseHeaderLine | app/server.go:69-80 | an accepted header is read back from its line |
| Legacy.ValidateHttpMethod | app/server.go:82-89 | succeeds exactly for GET and POST, returning the method; otherwise "invalid HTTP method" |
| Legacy.ValidateHttpVersion | app/server.go:98-103 | succeeds exactly for HTTP/1.1; otherwise "invalid HTTP protocol version" |
| Legacy.ValidateHttpTarget | app/server.go:91-96 | true exactly when the target has a '/' somewhere, which is when the unanchored pattern `/(echo/\w+)?` matches |
| Legacy.Kept | app/server.go:113-123 | every kept header has one of the three accepted names |
| Legacy.Parse | app/server.go:105-155 | success implies HTTP/1.1 and GET or POST; the only errors are "malformed request", the method error and the version error |
| Legacy.ParseRequest | app/server.go:105-155 | the loop computes exactly `Parse` |
| Legacy.KeptAppend | app/server.go:113-123 | parsing header lines part by part gives the same list |
| Legacy.SkipsRejected | app/server.go:116-119 | a header line parseHeader rejects is skipped: the result is as if it were absent |
| Legacy.KeepsAccepted | app/server.go:116-121 | an accepted line adds its header between those of the lines before and after it, so headers stay in input order |
| Legacy.KeptLines | app/server.go:113-123 | the lines written for accepted headers are all kept, in order, and give the headers back |
| Legacy.MalformedStartLine | app/server.go:125-128 | a start line that does not split into three words is "malformed request", whatever the header lines |
| Legacy.ParseLaidOut | app/server.go:105-155 | a message laid out as start line, header lines, empty line and body parses as its start line's words, the headers kept from its lines, and its body |
| Legacy.MethodBeforeVersion | app/server.go:131-144 | a request with both a wrong method and a wrong version is reported for its method |
| Legacy.TargetNeverRejects | app/server.go:136-139 | replacing the target never changes whether a request is accepted |
| Legacy.ComposeRequest | app/server.go:157-164 | the start line and an empty line: the headers and the body are not written; `ComposeParse` reads it back |
| Legacy.ComposeParse | app/server.go:157-164 | parsing `composeRequest(r)` gives back its start line, with no headers and an empty body |
| Legacy.ComposeResponse | app/server.go:166-179 | status line + one `name: value\r\n` per header, in order + `\r\n` + body |
| Legacy.ResponseReadBack | app/server.go:166-179 | a reader finds the body after the first empty line, and the headers in order after the status line |
| Legacy.TextResponse | app/server.go:211-228 | 200 OK with the given body, Content-Type text/plain, and a Content-Length that reads back as the body's length |
| Legacy.EchoResponse | app/server.go:181-200 | 200 OK; the body is the target after `/echo/`; Content-Type is text/plain; Content-Length reads back as the body's length; a target shorter than six characters panics (the precondition) |
| Legacy.FirstValue | app/server.go:203-209 | the value of the first header with the name, or "" when there is none |
| Legacy.HandleUserAgent | app/server.go:202-229 | a text/plain 200 response whose body is the first User-Agent value |
| Legacy.Dispatch | app/server.go:274-284 | the response is the one `Route` gives |
| Legacy.Route | app/server.go:274-284 | the routing switch as a function; `Routing` states what each case answers |
| Legacy.Routing | app/server.go:274-284 | `/` gets the root response; targets under `/echo/` echo the rest; `/user-agent` gets the agent; everything else gets 404 with no body; 200 exactly for those three routes |

## Left out

- Sockets and processes are not modelled: listening, accepting, the goroutine per connection, reading into and writing from connections, `os.Exit` and logging. `Server.Run` and `acceptLoop` (app/server/server.go:39, :51), `connHandler` (app/server.go:255) and the two `main` functions (app/server.go:296, app/main.go:51) are modelled only through what they decide.
- The fixed 1024-byte read buffer and its trailing NUL bytes are not modelled: the request text is taken as given.
- The gzip (RFC 1952) compressor is a parameter `compress: Bytes -> Option<Bytes>`. A failure on write and a failure on close are both `None`.
- The handlers in app/handlers.go are not part of this model. They use the filesystem, and the echo handler wraps the compressor. `/`, `/user-agent`, the echo handler and the file handlers are parameters of `AppMain.Startup`.
- app/config.go (command-line flags into global state) is not part of this model.
- `ServerCore.Server.Handle` takes an already parsed request and returns the response as a value. Parsing failures only close the connection, which is not modelled. For an empty target, where `req.Target[1:]` (app/server/server.go:106) panics, `Handle` and `ServerCore.Respond` use the corrected base path instead, and answer 404 whenever no empty path is registered (see "## Findings").
- Handlers return their response as a value (`ResponseState`), not as a shared `*Response`. Aliasing between a handler's response and other state is not captured.
- `GoStrings.TrimSpace` removes ASCII white space only, not Unicode white space.
- `GoStrings.Atoi` accepts any length of digits: the 64-bit overflow error of `strconv.Atoi` is not modelled.
- `Legacy.ValidateHttpTarget` states the condition under which the unanchored pattern `/(echo/\w+)?` matches, rather than running a regular expression. Its result is only printed.
- `Path()`, `Method()` and `Status()` accessors are plain field reads and are left out.
- `ServerHeader.HeadersToString`, `ServerResponse.Response.Bytes`, `MainResponse.Response.ToString` and `MainResponse.Response.Bytes` require every value to be writable by the corrected writer, which also writes string lists (see Findings). As written, the writer panics on a list.
- `ServerResponse.Response.AddHeader` requires an existing value to be a string list. In the source the stored value has static type `any` (`type headers map[string]any`, app/server/header.go:39), so `append(val, value)` at app/server/response.go:36-40 does not compile; the model reads that line as an append to the name's list.
- `AppMain.AcceptsGzip` treats an Accept-Encoding value that is not a token set as having no tokens. The parser never stores one.
- The `maxContentSize` field is set but never read, so the model has no behaviour for it.

## Findings

| source | as written | input that shows it | evidently intended | confidence | as-written member | corrected member |
|---|---|---|---|---|---|---|
| app/server/header.go:19-37 | `headers.ToString` type-asserts `int`, `map[string]bool` or `string`, but `Response.SetHeader`/`AddHeader` (app/server/response.go:35-45) store `[]string`, so the assertion panics | any 405 response (a GET to a path registered only for POST) writes `Allow`; any gzip response writes `Content-Length` | a list value is written with its items joined by `", "` | not executed | ServerCore.NotAllowedBreaksAssertions | ServerHeader.HeadersToString |
| app/server/server.go:106 | `req.Target[1:]` slices the target without checking it is non-empty | `GET  HTTP/1.1\r\n\r\n` parses with an empty target (`ServerRequest.EmptyTargetAccepted`), then slicing it panics | an empty target matches no route and gets 404 | not executed | ServerCore.BasePathAsWritten | ServerCore.EmptyTargetNotFound |
