/**
 * The single-file browser of WebBrowser (`WebBrowser/browser.py`): an
 * HTTP/1.0 request that asks the server to close the connection, a
 * response read through a text stream whose lines end only at CRLF, the
 * dispatch of `request()`, and the tag stripper `show`.
 *
 * The constructor of its `URL` class is the same code as lines 21-57 of
 * `WebBrowser/riva/url.py` and is modelled there (`LegacyUrl.Address`,
 * `LegacyUrl.URL.ParseAddress`).
 */
module LegacyBrowser {
  import opened Common
  import Http1
  import LegacyUrl

  // -----------------------------------------------------------------------
  // The request
  // -----------------------------------------------------------------------

  /** The fields of the request, in the order they are written. */
  function RequestFields(host: string): seq<(string, string)>
  {
    [("Host", host), ("Connection", "close"), ("User-Agent", "myFirstBrowser")]
  }

  function RequestLine(path: string): string
  {
    "GET " + path + " HTTP/1.0"
  }

  /** The whole request: request-line, field lines, empty line. */
  function RequestText(path: string, host: string): string
  {
    RequestLine(path) + "\r\n" + Http1.Concat(Http1.RenderFields(RequestFields(host))) + "\r\n"
  }

  /** Lines 72-76: the request built with `+=`. */
  method BuildRequest(path: string, host: string) returns (request: string)
    ensures request == RequestText(path, host)
  {
    request := RequestLine(path) + "\r\n";
    ghost var head := request;
    ghost var sent: seq<string> := [];
    assert request == head + Http1.Concat(sent);
    Http1.AppendLine(head, sent, Http1.FieldLine("Host", host));
    request, sent := request + Http1.FieldLine("Host", host), sent + [Http1.FieldLine("Host", host)];
    Http1.AppendLine(head, sent, Http1.FieldLine("Connection", "close"));
    request, sent := request + Http1.FieldLine("Connection", "close"), sent + [Http1.FieldLine("Connection", "close")];
    Http1.AppendLine(head, sent, Http1.FieldLine("User-Agent", "myFirstBrowser"));
    request, sent := request + Http1.FieldLine("User-Agent", "myFirstBrowser"),
                     sent + [Http1.FieldLine("User-Agent", "myFirstBrowser")];
    assert sent == Http1.RenderFields(RequestFields(host));
    request := request + "\r\n";
  }

  /**
   * A server reading the request (sections 3 and 5 of RFC 9112) finds the
   * method, the path and version HTTP/1.0 on the request-line, then the
   * three fields with their names lowercased, one of which asks to close
   * the connection, and nothing after the empty line.
   */
  lemma RequestReadBack(path: string, host: string)
    requires ' ' !in path && '\n' !in path
    requires Http1.Writable(("Host", host))
    ensures Http1.ReadLine(RequestText(path, host)) == (RequestLine(path) + "\r\n", Http1.Block(RequestFields(host), ""))
    ensures SplitChar(RequestLine(path), ' ') == ["GET", path, "HTTP/1.0"]
    ensures var fs := RequestFields(host);
            && Http1.FieldsFrom(Http1.Start, Http1.Block(fs, "")) == Http1.Complete(Http1.FoldFrom(Http1.Start, Http1.RenderFields(fs)), "")
            && Http1.FoldFrom(Http1.Start, Http1.RenderFields(fs)).fields == Http1.LowerNames(fs)
            && Http1.FoldFrom(Http1.Start, Http1.RenderFields(fs)).close
  {
    var fs := RequestFields(host);
    RequestLineReadsBack(path);
    RequestLineFirst(path, Http1.Block(fs, ""));
    assert RequestText(path, host) == RequestLine(path) + "\r\n" + Http1.Block(fs, "");
    RequestFieldsWritable(host);
    Http1.FieldBlockReadBack(fs, "");
    Http1.RenderedFlags(fs);
    AsksClose();
    assert Http1.AsksClose(fs[1]);
  }

  lemma RequestLineReadsBack(path: string)
    requires ' ' !in path
    ensures SplitChar(RequestLine(path), ' ') == ["GET", path, "HTTP/1.0"]
  {
    var parts := ["GET", path, "HTTP/1.0"];
    assert Join(parts, [' ']) == RequestLine(path) by {
      assert parts[1..][1..] == parts[2..] == ["HTTP/1.0"];
      assert Join(parts[1..], [' ']) == path + " " + "HTTP/1.0";
    }
    SplitJoin(parts, ' ');
  }

  lemma RequestLineFirst(path: string, rest: string)
    requires '\n' !in path
    ensures Http1.ReadLine(RequestLine(path) + "\r\n" + rest) == (RequestLine(path) + "\r\n", rest)
  {
    var line := RequestLine(path) + "\r\n";
    var body := RequestLine(path) + "\r";
    assert line == body + "\n" && line[..|line| - 1] == body;
    assert '\n' !in body;
    Http1.ReadLineOf(line, rest);
  }

  lemma RequestFieldsWritable(host: string)
    requires Http1.Writable(("Host", host))
    ensures var fs := RequestFields(host);
            (forall i :: 0 <= i < |fs| ==> Http1.Writable(fs[i])) && Http1.UniqueNames(Http1.LowerNames(fs))
  {
    var fs := RequestFields(host);
    assert Http1.Writable(("Connection", "close"));
    assert Http1.Writable(("User-Agent", "myFirstBrowser"));
    forall i | 0 <= i < |fs| ensures Http1.Writable(fs[i]) {
    }
    var ls := Http1.LowerNames(fs);
    forall i | 0 <= i < |fs| ensures ls[i] == (Lower(fs[i].0), fs[i].1) {
      Http1.LowerNamesAt(fs, i);
    }
    var h, c, u := ls[0].0, ls[1].0, ls[2].0;
    assert |h| == 4 && |c| == 10 && |u| == 10 && c[0] == 'c' && u[0] == 'u';
    assert Http1.Names(ls[2..]) == [u] && Http1.Names(ls[1..]) == [c, u];
    assert Http1.UniqueNames(ls[2..]);
    assert Http1.UniqueNames(ls[1..]);
  }

  /** `Connection: close`, in the letters it is written with, asks to close. */
  lemma AsksClose()
    ensures Http1.AsksClose(("Connection", "close"))
  {
    var name, t := "Connection", "connection";
    assert |Lower(name)| == |t|;
    forall i | 0 <= i < |name| ensures Lower(name)[i] == t[i] {
      assert Lower(name)[i] == LowerChar(name[i]);
    }
    var v := "close";
    forall i | 0 <= i < |v| ensures Lower(v)[i] == v[i] {
      assert Lower(v)[i] == LowerChar(v[i]);
    }
  }

  // -----------------------------------------------------------------------
  // The response
  // -----------------------------------------------------------------------

  /**
   * `readline()` on a text stream opened with `newline="\r\n"`: up to and
   * including the first CRLF, or the rest of the input when there is none
   * (the empty string at its end). A lone line feed does not end a line.
   */
  function ReadLine(s: string): (r: (string, string))
    ensures s == r.0 + r.1
    ensures r.0 == [] <==> s == []
    ensures !Contains(s, "\r\n") ==> r == (s, [])
  {
    match SplitOnce(s, "\r\n")
    case None => (s, [])
    case Some((line, rest)) =>
      assert s == line + "\r\n" + rest;
      (line + "\r\n", rest)
  }

  /** A line as this `readline` returns it: one CRLF, at its end. */
  predicate IsLine(line: string)
  {
    |line| >= 2 && line[|line| - 2..] == "\r\n" && !Contains(line[..|line| - 1], "\r\n")
  }

  lemma ReadLineOf(line: string, rest: string)
    requires IsLine(line)
    ensures ReadLine(line + rest) == (line, rest)
  {
    var a := line[..|line| - 2];
    var s := line + rest;
    assert s == a + "\r\n" + rest;
    forall j | 0 <= j < |a| ensures !MatchAt(s, "\r\n", j) {
      NotContainsNoMatch(line[..|line| - 1], "\r\n", j);
      assert s[j..j + 2] == line[..|line| - 1][j..j + 2];
    }
    SplitOnceAt(s, "\r\n", a, rest);
  }

  lemma NotContainsNoMatch(s: string, sub: string, j: nat)
    requires sub != [] && !Contains(s, sub)
    ensures !MatchAt(s, sub, j)
  {
  }

  /** A field line as written is a line for this `readline` too. */
  lemma FieldLineIsLine(name: string, value: string)
    requires Http1.Writable((name, value))
    ensures IsLine(Http1.FieldLine(name, value))
  {
    var line := Http1.FieldLine(name, value);
    var body := name + ": " + value;
    assert line == body + "\r\n";
    assert line[|line| - 2..] == "\r\n";
    assert line[..|line| - 1] == body + "\r";
    assert '\n' !in body + "\r";
    NoFeedNoCrlf(body + "\r");
  }

  lemma NoFeedNoCrlf(s: string)
    requires '\n' !in s
    ensures !Contains(s, "\r\n")
  {
    forall j: nat ensures !MatchAt(s, "\r\n", j) {
      if j + 2 <= |s| {
        assert s[j..j + 2][1] == s[j + 1] != '\n';
      }
    }
  }

  /**
   * One pass of the loop of lines 85-91 on a line other than `"\r\n"`: a
   * line without a colon, the empty read at the end of the input included,
   * raises; otherwise the lowercased name takes the stripped value.
   */
  function Step(fields: seq<(string, string)>, line: string): Result<seq<(string, string)>, LegacyUrl.FetchError>
  {
    match Http1.ParseFieldLine(line)
    case None => Err(LegacyUrl.FieldLineWithoutColon(line))
    case Some((name, value)) => Ok(Http1.Assign(fields, name, value))
  }

  /** The field loop on the input `s`, until the line `"\r\n"`. */
  function FieldsFrom(fields: seq<(string, string)>, s: string): Result<(seq<(string, string)>, string), LegacyUrl.FetchError>
    decreases |s|
  {
    var (line, rest) := ReadLine(s);
    if line == "\r\n" then Ok((fields, rest))
    else if line == [] then Err(LegacyUrl.FieldLineWithoutColon(line))
    else
      match Step(fields, line)
      case Err(e) => Err(e)
      case Ok(fields') => FieldsFrom(fields', rest)
  }

  /** Lines 84-91. */
  method ReadFields(input: string) returns (r: Result<(seq<(string, string)>, string), LegacyUrl.FetchError>)
    ensures r == FieldsFrom([], input)
  {
    var headers: seq<(string, string)> := [];
    var s := input;
    while true
      invariant FieldsFrom(headers, s) == FieldsFrom([], input)
      decreases |s|
    {
      var (line, rest) := ReadLine(s);
      if line == "\r\n" {
        return Ok((headers, rest));
      }
      if ':' !in line {
        return Err(LegacyUrl.FieldLineWithoutColon(line));
      }
      var parts := SplitAtChar(line, ':');
      headers := Http1.Assign(headers, Lower(parts.0), Strip(parts.1));
      s := rest;
    }
  }

  /**
   * Lines 81-95 on everything the server sends: the status line must split
   * into three parts, the fields are read and dropped, and the body is the
   * rest of the input, whatever `Content-Length` says.
   */
  function ExchangeSpec(response: string): Result<string, LegacyUrl.FetchError>
  {
    var (statusline, after) := ReadLine(response);
    if !LegacyUrl.TwoSpaces(statusline) then Err(LegacyUrl.StatusLineShort(statusline))
    else
      match FieldsFrom([], after)
      case Err(e) => Err(e)
      case Ok((_, rest)) => Ok(rest)
  }

  /**
   * The response half of `_request_http`; `closed` tells whether
   * `s.close()` ran, which it does only when nothing raised before it.
   */
  method Exchange(response: string) returns (r: Result<string, LegacyUrl.FetchError>, closed: bool)
    ensures r == ExchangeSpec(response)
    ensures closed <==> r.Ok?
  {
    var (statusline, after) := ReadLine(response);
    if ' ' !in statusline || ' ' !in SplitAtChar(statusline, ' ').1 {
      return Err(LegacyUrl.StatusLineShort(statusline)), false;
    }
    var fields := ReadFields(after);
    if fields.Err? {
      return Err(fields.error), false;
    }
    var body := fields.value.1;
    closed := true;
    r := Ok(body);
  }

  /**
   * The body is everything after the empty line: a `Content-Length` field,
   * whatever its value, changes nothing.
   */
  lemma BodyIsRest(statusline: string, fields: seq<(string, string)>, body: string)
    requires IsLine(statusline) && LegacyUrl.TwoSpaces(statusline)
    requires forall i :: 0 <= i < |fields| ==> Http1.Writable(fields[i])
    ensures ExchangeSpec(statusline + Http1.Block(fields, body)) == Ok(body)
  {
    var lines := Http1.RenderFields(fields);
    LegacyUrl.BlockSplit(fields, body);
    ReadLineOf(statusline, Http1.Block(fields, body));
    RenderedFieldsThen(fields, "\r\n" + body);
    ReadLineOf("\r\n", body);
  }

  /**
   * A response that ends before the empty line raises at the empty read
   * at its end.
   */
  lemma EndOfInputRaises(statusline: string, fields: seq<(string, string)>)
    requires IsLine(statusline) && LegacyUrl.TwoSpaces(statusline)
    requires forall i :: 0 <= i < |fields| ==> Http1.Writable(fields[i])
    ensures ExchangeSpec(statusline + Http1.Concat(Http1.RenderFields(fields))) == Err(LegacyUrl.FieldLineWithoutColon(""))
  {
    var text := Http1.Concat(Http1.RenderFields(fields));
    ReadLineOf(statusline, text);
    RenderedFieldsThen(fields, "");
    assert text + "" == text;
    FieldsAtEnd(RenderedFields(fields));
  }

  /** The fields a block of written field lines leaves behind. */
  function RenderedFields(fields: seq<(string, string)>): seq<(string, string)>
  {
    Http1.FoldFrom(Http1.FieldState([], None, false), Http1.RenderFields(fields)).fields
  }

  /** Written field lines are read one by one, then whatever follows them. */
  lemma RenderedFieldsThen(fields: seq<(string, string)>, tail: string)
    requires forall i :: 0 <= i < |fields| ==> Http1.Writable(fields[i])
    ensures FieldsFrom([], Http1.Concat(Http1.RenderFields(fields)) + tail) == FieldsFrom(RenderedFields(fields), tail)
  {
    var lines := Http1.RenderFields(fields);
    RenderedLines(fields, lines);
    FoldLines([], lines, tail);
  }

  lemma FieldsAtEnd(fields: seq<(string, string)>)
    ensures FieldsFrom(fields, "") == Err(LegacyUrl.FieldLineWithoutColon(""))
  {
    assert ReadLine("") == ("", "");
  }

  lemma RenderedLines(fields: seq<(string, string)>, lines: seq<string>)
    requires forall i :: 0 <= i < |fields| ==> Http1.Writable(fields[i])
    requires lines == Http1.RenderFields(fields)
    ensures forall i :: 0 <= i < |lines| ==> IsLine(lines[i]) && lines[i] != "\r\n" && Http1.ParseFieldLine(lines[i]).Some?
  {
    forall i | 0 <= i < |lines| ensures IsLine(lines[i]) && lines[i] != "\r\n" && Http1.ParseFieldLine(lines[i]).Some? {
      FieldLineIsLine(fields[i].0, fields[i].1);
      Http1.FieldLineParses(fields[i].0, fields[i].1);
    }
  }

  /** The loop over lines that parse, written as the fold of the later client. */
  lemma {:induction false} FoldLines(fields: seq<(string, string)>, lines: seq<string>, tail: string)
    requires forall i :: 0 <= i < |lines| ==> IsLine(lines[i]) && lines[i] != "\r\n" && Http1.ParseFieldLine(lines[i]).Some?
    ensures FieldsFrom(fields, Http1.Concat(lines) + tail)
            == FieldsFrom(Http1.FoldFrom(Http1.FieldState(fields, None, false), lines).fields, tail)
    decreases |lines|
  {
    if lines == [] {
      assert Http1.Concat(lines) + tail == tail;
    } else {
      var line, after := lines[0], Http1.Concat(lines[1..]) + tail;
      LegacyUrl.ConcatCons(lines, tail);
      ReadLineOf(line, after);
      var next := Http1.Step(Http1.FieldState(fields, None, false), line);
      Http1.StepEffect(Http1.FieldState(fields, None, false), line);
      assert Step(fields, line) == Ok(next.fields);
      FoldLines(next.fields, lines[1..], tail);
      FoldFields(next, lines[1..]);
    }
  }

  /** The fields of the fold do not depend on the flags it starts with. */
  lemma {:induction false} FoldFields(st: Http1.FieldState, lines: seq<string>)
    ensures Http1.FoldFrom(st, lines).fields == Http1.FoldFrom(Http1.FieldState(st.fields, None, false), lines).fields
    decreases |lines|
  {
    if lines != [] {
      var other := Http1.FieldState(st.fields, None, false);
      Http1.StepEffect(st, lines[0]);
      Http1.StepEffect(other, lines[0]);
      FoldFields(Http1.Step(st, lines[0]), lines[1..]);
      FoldFields(Http1.Step(other, lines[0]), lines[1..]);
    }
  }

  // -----------------------------------------------------------------------
  // Dispatch
  // -----------------------------------------------------------------------

  /**
   * `request()` (lines 49-55): web schemes are fetched, `file` is read from
   * disk, anything else is refused with the scheme in the message.
   */
  function RequestPlan(f: LegacyUrl.UrlFields): (p: LegacyUrl.Plan)
    requires f.scheme.Some?
    requires f.scheme == Some("file") ==> f.path.Some?
    ensures !p.DataText?
    ensures p.FetchHttp? <==> f.scheme == Some("http") || f.scheme == Some("https")
    ensures p.FetchHttp? ==> p.target == f && !p.sourceMode
    ensures p.ReadFile? <==> f.scheme == Some("file")
    ensures p.Unsupported? ==> p.message == "Unsupported scheme: " + f.scheme.value
  {
    var sch := f.scheme.value;
    if sch == "http" || sch == "https" then LegacyUrl.FetchHttp(f, false)
    else if sch == "file" then LegacyUrl.ReadFile(f.path.value)
    else LegacyUrl.Unsupported("Unsupported scheme: " + sch)
  }

  /**
   * The constructor leaves only `http`, `https` and `file`, so the
   * `ValueError` of line 55 is never raised for a URL it built: a file URL
   * is read at the path the constructor found.
   */
  lemma ParsedNeverUnsupported(url: string)
    requires LegacyUrl.Address(url).Ok?
    ensures var f := LegacyUrl.Address(url).value;
            && f.scheme.Some? && (f.scheme == Some("file") ==> f.path.Some?)
            && !RequestPlan(f).Unsupported?
            && (RequestPlan(f).ReadFile? ==> RequestPlan(f).path == f.path.value)
  {
  }

  // -----------------------------------------------------------------------
  // show
  // -----------------------------------------------------------------------

  /**
   * What `show` prints for the characters `s` when it starts inside a tag
   * or not: `<` opens a tag, `>` closes one, and any other character is
   * printed when it is outside a tag.
   */
  function Shown(inTag: bool, s: string): (r: string)
    ensures |r| <= |s|
    ensures forall i :: 0 <= i < |r| ==> r[i] != '<' && r[i] != '>'
    decreases |s|
  {
    if s == [] then []
    else if s[0] == '<' then Shown(true, s[1..])
    else if s[0] == '>' then Shown(false, s[1..])
    else if inTag then Shown(true, s[1..])
    else [s[0]] + Shown(false, s[1..])
  }

  /** Whether `show` is inside a tag after the characters `s`. */
  function InTagAfter(inTag: bool, s: string): bool
    decreases |s|
  {
    if s == [] then inTag
    else if s[0] == '<' then InTagAfter(true, s[1..])
    else if s[0] == '>' then InTagAfter(false, s[1..])
    else InTagAfter(inTag, s[1..])
  }

  /** Lines 116-125; the printed characters are returned instead. */
  method Show(body: string) returns (out: string)
    ensures out == Shown(false, body)
  {
    out := [];
    var inTag := false;
    for i := 0 to |body|
      invariant out + Shown(inTag, body[i..]) == Shown(false, body)
    {
      var c := body[i];
      assert body[i..] == [c] + body[i + 1..];
      if c == '<' {
        inTag := true;
      } else if c == '>' {
        inTag := false;
      } else if !inTag {
        out := out + [c];
      }
    }
  }

  /**
   * Text is printed unchanged exactly when it holds neither angle bracket:
   * a lone `>` in running text is dropped too.
   */
  lemma {:induction false} PlainUnchanged(s: string)
    ensures Shown(false, s) == s <==> '<' !in s && '>' !in s
    decreases |s|
  {
    if s != [] && s[0] != '<' && s[0] != '>' {
      PlainUnchanged(s[1..]);
      assert s == [s[0]] + s[1..];
    } else if s != [] {
      assert |Shown(false, s)| <= |s[1..]| < |s|;
    }
  }

  /** Printing what was printed changes nothing. */
  lemma ShownIdempotent(s: string)
    ensures Shown(false, Shown(false, s)) == Shown(false, s)
  {
    var r := Shown(false, s);
    PlainUnchanged(r);
  }

  /** The stripper runs over a concatenation piece by piece. */
  lemma {:induction false} ShownAppend(inTag: bool, a: string, b: string)
    ensures Shown(inTag, a + b) == Shown(inTag, a) + Shown(InTagAfter(inTag, a), b)
    decreases |a|
  {
    if a == [] {
      assert a + b == b;
    } else {
      assert (a + b)[0] == a[0] && (a + b)[1..] == a[1..] + b;
      var next := if a[0] == '<' then true else if a[0] == '>' then false else inTag;
      ShownAppend(next, a[1..], b);
    }
  }

  /** A tag, whatever state precedes it, prints nothing and leaves the tag closed. */
  lemma TagRemoved(inTag: bool, t: string, b: string)
    requires '>' !in t
    ensures Shown(inTag, "<" + t + ">" + b) == Shown(false, b)
  {
    TagInterior(t, ">" + b);
    assert "<" + t + ">" + b == ['<'] + (t + (">" + b));
    assert (['<'] + (t + (">" + b)))[1..] == t + (">" + b);
    assert (">" + b)[1..] == b;
  }

  lemma {:induction false} TagInterior(t: string, rest: string)
    requires '>' !in t
    ensures Shown(true, t + rest) == Shown(true, rest)
    decreases |t|
  {
    if t != [] {
      assert (t + rest)[1..] == t[1..] + rest;
      TagInterior(t[1..], rest);
    } else {
      assert t + rest == rest;
    }
  }
}
