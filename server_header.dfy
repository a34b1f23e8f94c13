/** The header table of the `server` package (app/server/header.go): a map from header name to a
    typed value, filled from request header lines and written back as `Name: value` lines. */
module ServerHeader {
  import opened Wrappers
  import opened GoStrings
  import Framing

  const AcceptEncoding: string := "Accept-Encoding"
  const Allow: string := "Allow"
  const ContentEncoding: string := "Content-Encoding"
  const ContentType: string := "Content-Type"
  const ContentLength: string := "Content-Length"
  const UserAgent: string := "User-Agent"

  /** The names whose value is kept as plain text. */
  const TextNames: set<string> := {Allow, ContentEncoding, ContentType, UserAgent}

  /** Every name parseHeaders can keep. */
  const Recognised: set<string> := TextNames + {AcceptEncoding, ContentLength}

  /** The dynamic types a value of the Go `map[string]any` takes in this program. */
  datatype HeaderValue =
    | Text(text: string)            // string: most headers
    | Number(n: int)                // int: a parsed Content-Length
    | Tokens(tokens: set<string>)   // map[string]bool: the Accept-Encoding token set
    | Values(values: seq<string>)   // []string: what Response.SetHeader and AddHeader store

  type HeaderMap = map<string, HeaderValue>

  /** The dynamic type ToString asserts for a name: int for Content-Length, a token set for
      Accept-Encoding, a string otherwise. Any other value makes ToString panic. */
  predicate AssertionsHold(name: string, v: HeaderValue)
  {
    if name == ContentLength then v.Number?
    else if name == AcceptEncoding then v.Tokens?
    else v.Text?
  }

  // ---------------------------------------------------------------- parsing

  /** The Accept-Encoding tokens of a value: every comma-separated piece, trimmed of white space. */
  function EncodingTokens(value: string): set<string>
  {
    TrimmedSet(Split(value, ","))
  }

  /** The set of the trimmed pieces. */
  function TrimmedSet(pieces: seq<string>): (ts: set<string>)
    ensures forall i :: 0 <= i < |pieces| ==> TrimSpace(pieces[i]) in ts
    ensures forall t :: t in ts ==> exists i :: 0 <= i < |pieces| && t == TrimSpace(pieces[i])
  {
    if pieces == [] then {}
    else TrimmedSet(pieces[..|pieces| - 1]) + {TrimSpace(pieces[|pieces| - 1])}
  }

  /** The switch on the name: what a cut line with this name and value contributes, or None. */
  function Entry(key: string, value: string): (r: Option<(string, HeaderValue)>)
    ensures r.Some? ==> r.value.0 == key && key in Recognised
  {
    if key == AcceptEncoding then Some((key, Tokens(EncodingTokens(value))))
    else if key == ContentLength then
      match Atoi(value)
      case None => None
      case Some(n) => Some((key, Number(n)))
    else if key == Allow || key == ContentEncoding || key == ContentType || key == UserAgent then
      Some((key, Text(value)))
    else None
  }

  /** What one header line contributes to the table, or None when the line is skipped. */
  function LineEntry(line: string): (r: Option<(string, HeaderValue)>)
    ensures !Cut(line, ": ").found ==> r == None
    ensures r.Some? ==> r.value.0 in Recognised && line == r.value.0 + ": " + Cut(line, ": ").after
  {
    var c := Cut(line, ": ");
    if !c.found then None else Entry(c.before, c.after)
  }

  /** The table parseHeaders builds from `lines`, processed first to last. */
  function HeadersOf(lines: seq<string>): (h: HeaderMap)
    ensures h.Keys <= Recognised
    ensures forall k :: k in h ==> AssertionsHold(k, h[k])
  {
    if lines == [] then map[]
    else
      var h := HeadersOf(lines[..|lines| - 1]);
      match LineEntry(lines[|lines| - 1])
      case None => h
      case Some(e) => h[e.0 := e.1]
  }

  /** The token set of one Accept-Encoding value; the inner loop of parseHeaders. */
  method ParseTokens(value: string) returns (e: set<string>)
    ensures e == EncodingTokens(value)
  {
    var pieces := Split(value, ",");
    e := {};
    for i := 0 to |pieces|
      invariant e == TrimmedSet(pieces[..i])
    {
      e := e + {TrimSpace(pieces[i])};
      assert pieces[..i + 1][..i] == pieces[..i];
    }
    assert pieces[..|pieces|] == pieces;
  }

  /** parseHeaders: one pass over the lines; a line that cannot be cut, has an unknown name or an
      unparsable Content-Length is skipped, and a later line overwrites an earlier one. */
  method ParseHeaders(data: seq<string>) returns (h: HeaderMap)
    ensures h == HeadersOf(data)
  {
    h := map[];
    for i := 0 to |data|
      invariant h == HeadersOf(data[..i])
    {
      var l := data[i];
      TakeSnoc(data, i);
      HeadersSnoc(data[..i], l);
      var c := Cut(l, ": ");
      if !c.found {
        continue;
      }
      var key, value := c.before, c.after;
      ghost var entry := Entry(key, value);
      assert LineEntry(l) == entry;
      if key == AcceptEncoding {
        var e := ParseTokens(value);
        h := h[key := Tokens(e)];
      } else if key == Allow || key == ContentEncoding || key == ContentType || key == UserAgent {
        h := h[key := Text(value)];
      } else if key == ContentLength {
        var n := Atoi(value);
        if n.None? {
          continue;
        }
        h := h[key := Number(n.value)];
      } else {
        continue;
      }
    }
    assert data[..|data|] == data;
  }

  // ---------------------------------------------------------------- properties of parsing

  /** One more line: the table is updated with the line's entry, if it has one. */
  lemma HeadersSnoc(lines: seq<string>, l: string)
    ensures HeadersOf(lines + [l]) ==
      match LineEntry(l)
      case None => HeadersOf(lines)
      case Some(e) => HeadersOf(lines)[e.0 := e.1]
  {
    assert (lines + [l])[..|lines|] == lines;
  }

  /** A skipped line changes nothing: the lines around it are parsed as if it were absent. */
  lemma {:induction false} SkippedLine(a: seq<string>, l: string, b: seq<string>)
    requires LineEntry(l) == None
    ensures HeadersOf(a + [l] + b) == HeadersOf(a + b)
    decreases |b|
  {
    if b == [] {
      assert a + [l] + b == a + [l] && a + b == a;
      HeadersSnoc(a, l);
    } else {
      var b', x := b[..|b| - 1], b[|b| - 1];
      assert a + [l] + b == (a + [l] + b') + [x];
      assert a + b == (a + b') + [x];
      SkippedLine(a, l, b');
      HeadersSnoc(a + [l] + b', x);
      HeadersSnoc(a + b', x);
    }
  }


  /** A line without ": " is skipped. */
  lemma UncutLineSkipped(a: seq<string>, l: string, b: seq<string>)
    requires Free(l, ": ")
    ensures HeadersOf(a + [l] + b) == HeadersOf(a + b)
  {
    SkippedLine(a, l, b);
  }

  /** A Content-Length that Atoi rejects leaves the table as it was. */
  lemma BadContentLengthSkipped(a: seq<string>, value: string, b: seq<string>)
    requires Atoi(value) == None
    ensures HeadersOf(a + [ContentLength + ": " + value] + b) == HeadersOf(a + b)
  {
    Framing.HeaderLineCut(ContentLength, value);
    SkippedLine(a, ContentLength + ": " + value, b);
  }

  /** The last accepted line for a name decides its value. */
  lemma {:induction false} LastWriteWins(a: seq<string>, l: string, b: seq<string>, k: string, v: HeaderValue)
    requires LineEntry(l) == Some((k, v))
    requires forall i :: 0 <= i < |b| ==> LineEntry(b[i]).None? || LineEntry(b[i]).value.0 != k
    ensures k in HeadersOf(a + [l] + b) && HeadersOf(a + [l] + b)[k] == v
    decreases |b|
  {
    if b == [] {
      assert (a + [l])[..|a|] == a;
      assert a + [l] + b == a + [l];
    } else {
      var b' := b[..|b| - 1];
      assert (a + [l] + b)[..|a + [l] + b| - 1] == a + [l] + b';
      assert (a + [l] + b)[|a + [l] + b| - 1] == b[|b| - 1];
      LastWriteWins(a, l, b', k, v);
    }
  }



  /** Line `l` is accepted under the name `k`. */
  predicate Contributes(l: string, k: string)
  {
    LineEntry(l).Some? && LineEntry(l).value.0 == k
  }

  /** The last line adds its name to the table when it is accepted, and adds nothing otherwise. */
  lemma KeyStep(lines: seq<string>, k: string)
    requires lines != []
    ensures k in HeadersOf(lines) <==>
      k in HeadersOf(lines[..|lines| - 1]) || Contributes(lines[|lines| - 1], k)
  {
    var e := LineEntry(lines[|lines| - 1]);
    if e.Some? {
      var h := HeadersOf(lines[..|lines| - 1]);
      assert HeadersOf(lines) == h[e.value.0 := e.value.1];
      assert k in HeadersOf(lines) <==> k in h || k == e.value.0;
    }
  }



  /** An accepted line puts its name in the table, whatever follows it. */
  lemma {:induction false} KeyFromLine(lines: seq<string>, i: int, k: string)
    requires 0 <= i < |lines| && Contributes(lines[i], k)
    ensures k in HeadersOf(lines)
    decreases |lines|
  {
    KeyStep(lines, k);
    if i < |lines| - 1 {
      KeyFromLine(lines[..|lines| - 1], i, k);
    }
  }

  /** A name in the table came from some accepted line. */
  lemma {:induction false} LineFromKey(lines: seq<string>, k: string) returns (i: int)
    requires k in HeadersOf(lines)
    ensures 0 <= i < |lines| && Contributes(lines[i], k)
    decreases |lines|
  {
    KeyStep(lines, k);
    if Contributes(lines[|lines| - 1], k) {
      i := |lines| - 1;
    } else {
      i := LineFromKey(lines[..|lines| - 1], k);
    }
  }

  /** A name is in the table exactly when some line is accepted under that name. */
  lemma KeyPresent(lines: seq<string>, k: string)
    ensures k in HeadersOf(lines) <==> exists i :: 0 <= i < |lines| && Contributes(lines[i], k)
  {
    if k in HeadersOf(lines) {
      var i := LineFromKey(lines, k);
    }
    forall i | 0 <= i < |lines| && Contributes(lines[i], k)
      ensures k in HeadersOf(lines)
    {
      KeyFromLine(lines, i, k);
    }
  }

  /** The key of a kept line is the text before its first ": ", so the value may itself hold ": ". */
  lemma ValueMayHoldSeparator(name: string, value: string)
    requires name in TextNames
    ensures LineEntry(name + ": " + value) == Some((name, Text(value)))
  {
    TextNameShape(name);
    Framing.HeaderLineCut(name, value);
    assert Entry(name, value) == Some((name, Text(value)));
  }

  lemma TextNameShape(name: string)
    requires name in TextNames
    ensures ':' !in name && name != AcceptEncoding && name != ContentLength
    ensures name == Allow || name == ContentEncoding || name == ContentType || name == UserAgent
  {
  }

  /** An Accept-Encoding line keeps its trimmed comma-separated tokens. */
  lemma AcceptEncodingExample()
    ensures LineEntry("Accept-Encoding: gzip, br") == Some((AcceptEncoding, Tokens({"gzip", "br"})))
  {
    assert "Accept-Encoding: gzip, br" == AcceptEncoding + ": " + "gzip, br";
    Framing.HeaderLineCut(AcceptEncoding, "gzip, br");
    GzipBrTokens();
  }

  lemma GzipBrTokens()
    ensures EncodingTokens("gzip, br") == {"gzip", "br"}
  {
    SplitGzipBr();
    TrimmedPair("gzip", " br");
    TrimExamples();
  }

  lemma TrimmedPair(a: string, b: string)
    ensures TrimmedSet([a, b]) == {TrimSpace(a), TrimSpace(b)}
  {
    assert [a, b][..1] == [a];
    assert [a][..0] == [];
  }

  lemma TrimExamples()
    ensures TrimSpace(" br") == "br" && TrimSpace("gzip") == "gzip"
  {
    assert " br"[1..] == "br";
    assert TrimLeft(" br") == TrimLeft("br");
  }

  lemma SplitGzipBr()
    ensures Split("gzip, br", ",") == ["gzip", " br"]
  {
    var parts := ["gzip", " br"];
    assert parts[1..] == [" br"];
    assert Join(parts, ",") == "gzip, br";
    SplitJoin(parts, ",");
  }

  // ---------------------------------------------------------------- writing

  /** The values ToString can write. As written, ToString asserts the dynamic type of every value
      (see AssertionsHold) and panics on a list; the corrected renderer also writes a list value,
      its elements joined by ", ", which is what Response.SetHeader and AddHeader store. */
  predicate Renderable(name: string, v: HeaderValue)
  {
    AssertionsHold(name, v) || v.Values?
  }

  predicate AllRenderable(h: HeaderMap)
  {
    forall k :: k in h ==> Renderable(k, h[k])
  }

  /** `order` lists every element of `s` exactly once. */
  ghost predicate Enumerates(order: seq<string>, s: set<string>)
  {
    (forall i, j :: 0 <= i < j < |order| ==> order[i] != order[j]) &&
    (forall x :: x in order <==> x in s)
  }

  /** `text` is the way `v` is written: an int in decimal, a token set joined by "," in the order
      map iteration happens to give, a list joined by ", ". */
  ghost predicate Renders(v: HeaderValue, text: string)
  {
    match v
    case Text(t) => text == t
    case Number(n) => text == Itoa(n)
    case Tokens(ts) => exists o :: Enumerates(o, ts) && text == Join(o, ",")
    case Values(vs) => text == Join(vs, ", ")
  }

  function Line(name: string, text: string): string
  {
    name + ": " + text + CRLF
  }

  /** The header lines for the names in `order`, with the value texts in `texts`. */
  function Block(order: seq<string>, texts: seq<string>): string
    requires |order| == |texts|
  {
    if order == [] then ""
    else Block(order[..|order| - 1], texts[..|texts| - 1]) + Line(order[|order| - 1], texts[|texts| - 1])
  }

  /** `order` and `texts` are one way ToString may write `h`: every name once, each with the text
      of its value. */
  ghost predicate IsRendering(h: HeaderMap, order: seq<string>, texts: seq<string>)
  {
    Enumerates(order, h.Keys) && |texts| == |order| &&
    forall i :: 0 <= i < |order| ==> order[i] in h && Renders(h[order[i]], texts[i])
  }

  /** The Accept-Encoding branch of ToString: collect the tokens in iteration order, join by ",". */
  method JoinTokens(ts: set<string>) returns (text: string)
    ensures Renders(Tokens(ts), text)
  {
    var l: seq<string> := [];
    var rest := ts;
    while rest != {}
      invariant rest <= ts
      invariant forall i, j :: 0 <= i < j < |l| ==> l[i] != l[j]
      invariant forall x :: x in l <==> x in ts && x !in rest
      decreases rest
    {
      var e :| e in rest;
      l := l + [e];
      rest := rest - {e};
    }
    text := Join(l, ",");
    assert Enumerates(l, ts);
  }

  /** The text of one value, by the branch ToString takes for its name. */
  method ValueText(name: string, v: HeaderValue) returns (text: string)
    requires Renderable(name, v)
    ensures Renders(v, text)
  {
    if v.Values? {
      text := Join(v.values, ", ");
    } else if name == ContentLength {
      text := Itoa(v.n);
    } else if name == AcceptEncoding {
      text := JoinTokens(v.tokens);
    } else {
      text := v.text;
    }
  }

  /** headers.ToString: one "Name: value\r\n" line per name, in map-iteration order. The order
      and the value texts chosen are returned as ghost results. */
  method HeadersToString(h: HeaderMap) returns (s: string, ghost order: seq<string>, ghost texts: seq<string>)
    requires AllRenderable(h)
    ensures IsRendering(h, order, texts)
    ensures s == Block(order, texts)
  {
    s, order, texts := "", [], [];
    var rest := h.Keys;
    while rest != {}
      invariant rest <= h.Keys
      invariant forall i, j :: 0 <= i < j < |order| ==> order[i] != order[j]
      invariant forall x :: x in order <==> x in h.Keys && x !in rest
      invariant |texts| == |order|
      invariant forall i :: 0 <= i < |order| ==> order[i] in h && Renders(h[order[i]], texts[i])
      invariant s == Block(order, texts)
      decreases rest
    {
      var k :| k in rest;
      var v := ValueText(k, h[k]);
      assert (order + [k])[..|order|] == order && (texts + [v])[..|texts|] == texts;
      s := s + Line(k, v);
      order, texts := order + [k], texts + [v];
      rest := rest - {k};
    }
  }

  /** An enumeration of a set is as long as the set: ToString writes exactly one line per name. */
  lemma {:induction false} EnumerationSize(order: seq<string>, s: set<string>)
    requires Enumerates(order, s)
    ensures |order| == |s|
    decreases |order|
  {
    if order != [] {
      var last := order[|order| - 1];
      var init := order[..|order| - 1];
      assert forall x :: x in init ==> x != last;
      assert Enumerates(init, s - {last});
      EnumerationSize(init, s - {last});
    } else {
      assert forall x :: x !in s;
      assert s == {};
    }
  }
}
