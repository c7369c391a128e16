/**
 * The first-generation URL class of WebBrowser (`WebBrowser/riva/url.py`):
 * the constructor that splits a URL into scheme, host, port and path, the
 * data-URL body, and the HTTP/1.1 exchange of `_request_http` with its
 * field-line loop and its choice between closing the socket and handing it
 * to the connection cache.
 *
 * The constructor assigns the object's attributes one by one; it becomes
 * the class `URL` whose methods are proved against pure functions over a
 * snapshot of those attributes (`UrlFields`). The code of lines 21-57 is the
 * same text as the constructor of `WebBrowser/browser.py`, so `Address`
 * models both.
 */
module LegacyUrl {
  import opened Common
  import Url
  import Http1

  /** Why the constructor raised. */
  datatype ParseError =
    | SchemeRejected(scheme: string)   // `assert self.scheme in [...]` fails: AssertionError
    | PortNotInteger(text: string)     // `int(port)` raises ValueError

  /**
   * The attributes of a `URL` object; an attribute the constructor never
   * assigns is `None`. `inner` is the object built for the text after
   * `view-source:`, which nothing changes once it is built.
   */
  datatype UrlFields = UrlFields(
    scheme: Option<string>,
    host: Option<string>,
    port: Option<int>,
    path: Option<string>,
    inner: Option<UrlFields>)

  const Unset := UrlFields(None, None, None, None, None)

  /** An error, or the object's final attributes. */
  function AsResult(err: Option<ParseError>, f: UrlFields): Result<UrlFields, ParseError>
  {
    if err.Some? then Err(err.value) else Ok(f)
  }

  // -----------------------------------------------------------------------
  // The constructor as functions
  // -----------------------------------------------------------------------

  /**
   * `URL(url)`: the two special prefixes first, then the address. An error
   * in the URL behind `view-source:` escapes unchanged.
   */
  function Parse(url: string): (r: Result<UrlFields, ParseError>)
    ensures r.Ok? ==> WellFormed(r.value)
    ensures r.Ok? ==> (r.value.scheme == Some("view-source") <==> StartsWith(url, "view-source:"))
    decreases |url|
  {
    if StartsWith(url, "view-source:") then
      match Parse(url[12..])
      case Ok(inner) => Ok(Unset.(scheme := Some("view-source"), inner := Some(inner)))
      case Err(e) => Err(e)
    else if StartsWith(url, "data:text/html,") then
      assert url[14] == ',';
      Ok(Unset.(scheme := Some("data"), path := Some(SplitAtChar(url, ',').1)))
    else Address(url)
  }

  /**
   * Lines 21-57: a Windows-looking input or one without `://` is a file
   * path; otherwise the text before the first `://` is the scheme, which
   * must be http, https or file.
   */
  function Address(url: string): (r: Result<UrlFields, ParseError>)
    ensures r.Ok? ==> r.value.scheme.Some? && r.value.scheme.value in {"file", "http", "https"} && r.value.inner.None?
    ensures r.Ok? && r.value.scheme == Some("file") ==> r.value.path.Some?
    ensures r.Ok? && r.value.scheme != Some("file") ==> HttpShaped(r.value)
    ensures r.Err? ==> Contains(url, "://") && !Url.IsWindowsPath(url)
  {
    var windows := Url.IsWindowsPath(url);
    if windows || !Contains(url, "://") then
      Ok(FileRest(Unset.(scheme := Some("file"), path := Some(url)), url, windows))
    else
      var (s, rest) := SplitOnce(url, "://").value;
      if s == "http" || s == "https" then HttpRest(Unset.(scheme := Some(s)), rest)
      else if s == "file" then Ok(FileRest(Unset.(scheme := Some("file")), rest, false))
      else Err(SchemeRejected(s))
  }

  /**
   * What every object the constructor builds has: one of the five schemes, a path when
   * the scheme is file or data, and a well-formed inner object behind
   * `view-source:`.
   */
  predicate WellFormed(f: UrlFields)
  {
    && f.scheme.Some? && f.scheme.value in {"view-source", "data", "file", "http", "https"}
    && (f.scheme.value in {"file", "data"} ==> f.path.Some?)
    && (f.scheme.value == "view-source" ==> f.inner.Some? && WellFormed(f.inner.value))
  }

  /** What the http branch leaves: a host without `/` or `:`, some port, a path starting with `/`. */
  predicate HttpShaped(f: UrlFields)
  {
    && f.host.Some? && '/' !in f.host.value && ':' !in f.host.value
    && f.port.Some?
    && f.path.Some? && |f.path.value| > 0 && f.path.value[0] == '/'
  }

  /**
   * Lines 34-49: the default port of the scheme, a `/` appended when the
   * rest has none, the host before the first `/`, and an integer port after
   * the first `:` of the host, with no range check.
   */
  function HttpRest(f: UrlFields, url: string): (r: Result<UrlFields, ParseError>)
    requires f.scheme == Some("http") || f.scheme == Some("https")
    ensures r.Ok? ==> HttpShaped(r.value) && r.value.scheme == f.scheme && r.value.inner == f.inner
  {
    var u := if '/' in url then url else url + "/";
    var (hostPart, tail) := SplitAtChar(u, '/');
    var f1 := f.(port := Some(if f.scheme == Some("http") then 80 else 443),
                 host := Some(hostPart), path := Some("/" + tail));
    if ':' !in hostPart then Ok(f1)
    else
      var (h, portText) := SplitAtChar(hostPart, ':');
      match ParseInt(portText)
      case None => Err(PortNotInteger(portText))
      case Some(n) => Ok(f1.(host := Some(h), port := Some(n)))
  }

  /**
   * Lines 50-57: a rest starting with `/` is the path; otherwise every
   * `file://` is removed and the leading slashes are dropped. A Windows
   * path keeps the path it was given.
   */
  function FileRest(f: UrlFields, url: string, windows: bool): UrlFields
  {
    if !windows && StartsWith(url, "/") then f.(path := Some(url))
    else if !windows then f.(path := Some(Url.DropSlashes(RemoveAll(url, "file://"))))
    else f
  }

  /** Python's `s.replace(pat, '')`: occurrences removed left to right, never overlapping. */
  function RemoveAll(s: string, pat: string): (r: string)
    requires pat != []
    ensures |r| <= |s|
    decreases |s|
  {
    if s == [] then []
    else if StartsWith(s, pat) then RemoveAll(s[|pat|..], pat)
    else [s[0]] + RemoveAll(s[1..], pat)
  }

  /** A string in which the pattern does not occur comes back unchanged. */
  lemma {:induction false} RemoveAllAbsent(s: string, pat: string)
    requires pat != [] && !Contains(s, pat)
    ensures RemoveAll(s, pat) == s
    decreases |s|
  {
    if s != [] {
      assert !MatchAt(s, pat, 0);
      forall j: nat ensures !MatchAt(s[1..], pat, j) {
        MatchAtShift(s, pat, j);
      }
      RemoveAllAbsent(s[1..], pat);
    }
  }

  // -----------------------------------------------------------------------
  // The constructor, step by step
  // -----------------------------------------------------------------------

  class URL {
    var scheme: Option<string>
    var host: Option<string>
    var port: Option<int>
    var path: Option<string>
    var inner: Option<UrlFields>

    function Fields(): UrlFields
      reads this
    {
      UrlFields(scheme, host, port, path, inner)
    }

    /** A fresh object before the constructor body has assigned anything. */
    constructor Init()
      ensures Fields() == Unset
    {
      scheme, host, port, path, inner := None, None, None, None, None;
    }

    /** `URL(url)`: a new object, or the error its constructor raises. */
    static method New(url: string) returns (r: Result<URL, ParseError>)
      decreases |url|, 2
      ensures r.Ok? ==> fresh(r.value) && Parse(url) == Ok(r.value.Fields())
      ensures r.Err? ==> Parse(url) == Err(r.error)
    {
      var u := new URL.Init();
      var err := u.ParseUrl(url);
      if err.Some? {
        return Err(err.value);
      }
      return Ok(u);
    }

    /** The body of `__init__`. */
    method ParseUrl(url: string) returns (err: Option<ParseError>)
      requires Fields() == Unset
      modifies this
      decreases |url|, 1
      ensures AsResult(err, Fields()) == Parse(url)
    {
      if StartsWith(url, "view-source:") {
        scheme := Some("view-source");
        var r := New(url[12..]);
        if r.Err? {
          return Some(r.error);
        }
        inner := Some(r.value.Fields());
        return None;
      }
      if StartsWith(url, "data:text/html,") {
        scheme := Some("data");
        assert url[14] == ',';
        path := Some(SplitAtChar(url, ',').1);
        return None;
      }
      err := ParseAddress(url);
    }

    /** Lines 21-57 of the constructor. */
    method ParseAddress(url: string) returns (err: Option<ParseError>)
      requires Fields() == Unset
      modifies this
      ensures AsResult(err, Fields()) == Address(url)
    {
      err := None;
      var windows := '\\' in url || (|url| > 1 && url[1] == ':');
      var rest := url;
      if windows || !Contains(url, "://") {
        scheme := Some("file");
        path := Some(url);
      } else {
        var parts := SplitOnce(url, "://").value;
        scheme := Some(parts.0);
        rest := parts.1;
        if parts.0 != "http" && parts.0 != "https" && parts.0 != "file" {
          return Some(SchemeRejected(parts.0));
        }
      }
      if scheme == Some("http") || scheme == Some("https") {
        err := ParseHttp(rest);
      } else {
        ParseFile(rest, windows);
      }
    }

    /** Lines 34-49. */
    method ParseHttp(url: string) returns (err: Option<ParseError>)
      requires scheme == Some("http") || scheme == Some("https")
      modifies this
      ensures AsResult(err, Fields()) == HttpRest(old(Fields()), url)
    {
      ghost var f0 := Fields();
      if scheme == Some("http") {
        port := Some(80);
      } else {
        port := Some(443);
      }
      var u := url;
      if '/' !in u {
        u := u + "/";
      }
      var parts := SplitAtChar(u, '/');
      host := Some(parts.0);
      path := Some("/" + parts.1);
      ghost var f1 := Fields();
      assert f1 == f0.(port := port, host := host, path := path);
      if ':' in parts.0 {
        var hp := SplitAtChar(parts.0, ':');
        host := Some(hp.0);
        var n := ParseInt(hp.1);
        match n {
          case None =>
            return Some(PortNotInteger(hp.1));
          case Some(v) =>
            port := Some(v);
            assert Fields() == f1.(host := Some(hp.0), port := Some(v));
        }
      }
      err := None;
    }

    /** Lines 50-57, with the slash-stripping loop. */
    method ParseFile(url: string, windows: bool)
      modifies this
      ensures Fields() == FileRest(old(Fields()), url, windows)
    {
      if !windows && StartsWith(url, "/") {
        path := Some(url);
      } else if !windows {
        var removed := RemoveAll(url, "file://");
        var p := removed;
        while StartsWith(p, "/")
          invariant Url.DropSlashes(p) == Url.DropSlashes(removed)
          decreases |p|
        {
          p := p[1..];
        }
        path := Some(p);
        assert p == Url.DropSlashes(removed);
      }
    }
  }

  // -----------------------------------------------------------------------
  // What the constructor promises
  // -----------------------------------------------------------------------

  /**
   * A Windows-looking input, or one without `://`, is a file URL whose path
   * is the whole input.
   */
  lemma FileFallback(url: string)
    requires !StartsWith(url, "view-source:") && !StartsWith(url, "data:text/html,")
    requires Url.IsWindowsPath(url) || !Contains(url, "://")
    ensures Parse(url) == Ok(Unset.(scheme := Some("file"), path := Some(url)))
  {
    if !Url.IsWindowsPath(url) && !StartsWith(url, "/") {
      NoSchemeNoFileScheme(url);
      RemoveAllAbsent(url, "file://");
    }
  }

  /** Where `file://` occurs, `://` occurs four characters later. */
  lemma NoSchemeNoFileScheme(url: string)
    requires !Contains(url, "://")
    ensures !Contains(url, "file://")
  {
    forall j: nat | MatchAt(url, "file://", j)
      ensures MatchAt(url, "://", j + 4)
    {
      assert url[j + 4..j + 7] == url[j..j + 7][4..];
    }
  }

  /** A scheme other than http, https or file fails the constructor's assertion. */
  lemma OtherSchemeRejected(url: string, s: string, rest: string)
    requires !StartsWith(url, "view-source:") && !StartsWith(url, "data:text/html,")
    requires !Url.IsWindowsPath(url)
    requires SplitOnce(url, "://") == Some((s, rest))
    requires s != "http" && s != "https" && s != "file"
    ensures Parse(url) == Err(SchemeRejected(s))
  {
  }

  /** `view-source:` wraps the object built from the rest, and an error there is the error of the whole. */
  lemma ViewSourceWraps(u: string)
    ensures Parse("view-source:" + u).Ok? <==> Parse(u).Ok?
    ensures Parse(u).Ok? ==> Parse("view-source:" + u).value == Unset.(scheme := Some("view-source"), inner := Some(Parse(u).value))
    ensures Parse(u).Err? ==> Parse("view-source:" + u).error == Parse(u).error
  {
    var url := "view-source:" + u;
    assert StartsWith(url, "view-source:");
    assert url[12..] == u;
  }

  /** The path of a data URL is its text after the comma, and `_request_data` gives that text back. */
  lemma DataRoundTrip(body: string)
    requires !StartsWith(body, "text/html,")
    ensures Parse("data:text/html," + body).Ok?
    ensures Url.RequestData(Parse("data:text/html," + body).value.path) == Some(body)
  {
    var url := "data:text/html," + body;
    assert StartsWith(url, "data:text/html,");
    assert !StartsWith(url, "view-source:") by {
      assert url[0] == 'd';
    }
    assert url == "data:text/html" + [','] + body;
    SplitAtCharOf("data:text/html", ',', body);
  }

  /** An http or https URL built from a host and a path reads back with the scheme's default port. */
  lemma HttpDefaults(s: string, host: string, tail: string)
    requires s == "http" || s == "https"
    requires '/' !in host && ':' !in host && '\\' !in host && '\\' !in tail
    ensures Parse(s + "://" + host + "/" + tail)
            == Ok(Unset.(scheme := Some(s), port := Some(if s == "http" then 80 else 443),
                         host := Some(host), path := Some("/" + tail)))
  {
    var rest := host + "/" + tail;
    assert s + "://" + host + "/" + tail == s + "://" + rest;
    SchemeSplit(s, rest);
    SplitAtCharOf(host, '/', tail);
  }

  /** A URL with nothing after the host gets the path `/`. */
  lemma HttpBareHost(s: string, host: string)
    requires s == "http" || s == "https"
    requires '/' !in host && ':' !in host && '\\' !in host
    ensures Parse(s + "://" + host)
            == Ok(Unset.(scheme := Some(s), port := Some(if s == "http" then 80 else 443),
                         host := Some(host), path := Some("/")))
  {
    SchemeSplit(s, host);
    assert host + "/" == host + ['/'] + [];
    SplitAtCharOf(host, '/', []);
    assert "/" + [] == "/";
    assert HttpRest(Unset.(scheme := Some(s)), host)
           == Ok(Unset.(scheme := Some(s), port := Some(if s == "http" then 80 else 443),
                        host := Some(host), path := Some("/")));
  }

  /**
   * The integer after the colon is the port whatever its value: a negative
   * port or one above 65535 is accepted.
   */
  lemma NoPortRangeCheck(host: string, k: nat, negative: bool, tail: string)
    requires '/' !in host && ':' !in host && '\\' !in host && '\\' !in tail
    ensures var text := (if negative then "-" else "") + NatToString(k);
            Parse("http://" + host + ":" + text + "/" + tail)
            == Ok(Unset.(scheme := Some("http"), port := Some(if negative then -(k as int) else k as int),
                         host := Some(host), path := Some("/" + tail)))
  {
    var text := (if negative then "-" else "") + NatToString(k);
    var hostPart := host + ":" + text;
    var rest := hostPart + "/" + tail;
    assert "http://" + host + ":" + text + "/" + tail == "http" + "://" + rest;
    assert '/' !in text by {
      assert forall i :: 0 <= i < |NatToString(k)| ==> IsDigit(NatToString(k)[i]);
    }
    assert '\\' !in text by {
      assert forall i :: 0 <= i < |NatToString(k)| ==> IsDigit(NatToString(k)[i]);
    }
    SchemeSplit("http", rest);
    assert '/' !in hostPart;
    SplitAtCharOf(hostPart, '/', tail);
    assert hostPart == host + [':'] + text;
    SplitAtCharOf(host, ':', text);
    SignedNatToString(k, negative);
  }

  /** `int()` reads back a decimal rendering, with or without a minus sign. */
  lemma SignedNatToString(k: nat, negative: bool)
    ensures ParseInt((if negative then "-" else "") + NatToString(k)) == Some(if negative then -(k as int) else k as int)
  {
    if negative {
      MinusNatToString(k);
    } else {
      assert "" + NatToString(k) == NatToString(k);
      ParseIntNatToString(k);
    }
  }

  lemma MinusNatToString(k: nat)
    ensures ParseInt("-" + NatToString(k)) == Some(-(k as int))
  {
    var r := NatToString(k);
    var t := "-" + r;
    assert t[0] == '-' && t[|t| - 1] == r[|r| - 1];
    assert !IsSpace(t[0]) && !IsSpace(t[|t| - 1]) by {
      assert IsDigit(r[|r| - 1]);
    }
    StripNoSpace(t);
    assert t[1..] == r;
    assert IsDigitGroup(r);
    NatToStringValue(k);
  }

  /** A URL `scheme://rest` whose scheme is http or https, with no backslash, reaches the http branch at `rest`. */
  lemma SchemeSplit(s: string, rest: string)
    requires s == "http" || s == "https"
    requires '\\' !in rest
    ensures var url := s + "://" + rest;
            && !StartsWith(url, "view-source:") && !StartsWith(url, "data:text/html,")
            && !Url.IsWindowsPath(url) && Contains(url, "://")
            && SplitOnce(url, "://") == Some((s, rest))
  {
    var url := s + "://" + rest;
    assert url[0] == 'h' && url[1] == 't';
    assert url[..|s|] == s;
    forall j | 0 <= j < |s| ensures !MatchAt(url, "://", j) {
      assert url[j] != ':';
    }
    SplitOnceAt(url, "://", s, rest);
  }

  /** `file://` followed by an absolute path keeps that path. */
  lemma FileAbsolute(p: string)
    requires StartsWith(p, "/") && '\\' !in p
    ensures Parse("file://" + p) == Ok(Unset.(scheme := Some("file"), path := Some(p)))
  {
    FileSplit(p);
  }

  /**
   * `file://` followed by a relative path without `file://` in it keeps
   * that path; the leading slashes dropped by the loop are never there.
   */
  lemma FileRelative(p: string)
    requires !StartsWith(p, "/") && '\\' !in p && !Contains(p, "file://")
    ensures Parse("file://" + p) == Ok(Unset.(scheme := Some("file"), path := Some(p)))
  {
    FileRelativePath(p);
    RemoveAllAbsent(p, "file://");
  }

  lemma FileRelativePath(p: string)
    requires !StartsWith(p, "/") && '\\' !in p
    ensures Parse("file://" + p)
            == Ok(Unset.(scheme := Some("file"), path := Some(Url.DropSlashes(RemoveAll(p, "file://")))))
  {
    FileSplit(p);
    var url := "file://" + p;
    assert Parse(url) == Address(url);
    assert Address(url) == Ok(FileRest(Unset.(scheme := Some("file")), p, false));
  }

  /**
   * Removing `file://` can create a new `file://`: the rest `filfile://`
   * followed by `e` loses the `file://` in its middle and leaves `fil` + `e`;
   * with `e` = `e://` the path is `file://` again.
   */
  lemma RemovalCanLeaveScheme(e: string)
    requires '\\' !in e && !Contains(e, "file://")
    ensures Parse("file://filfile://" + e) == Ok(Unset.(scheme := Some("file"), path := Some("fil" + e)))
  {
    FilFile(e);
    var p := "filfile://" + e;
    RemoveFilFile(e);
    FileRelativePath(p);
  }

  /** `replace` on `filfile://` followed by text without `file://`. */
  lemma RemoveFilFile(e: string)
    requires !Contains(e, "file://")
    ensures RemoveAll("filfile://" + e, "file://") == "fil" + e
  {
    var pat := "file://";
    var x := pat + e;
    var y := ['l'] + x;
    var z := ['i'] + y;
    var p := ['f'] + z;
    FilFile(e);
    RemoveAllAbsent(e, pat);
    assert RemoveAll(x, pat) == e by {
      assert x[..7] == pat;
      assert x[7..] == e;
    }
    assert pat[0] == 'f' && pat[3] == 'e';
    assert y[0] == 'l' && z[0] == 'i' && p[3] == 'f';
    KeepFirst('l', x, pat);
    KeepFirst('i', y, pat);
    KeepFirst('f', z, pat);
  }

  /** The strings of `RemovalCanLeaveScheme`, character by character. */
  lemma FilFile(e: string)
    ensures "filfile://" + e == ['f'] + (['i'] + (['l'] + ("file://" + e)))
    ensures "fil" + e == ['f'] + (['i'] + (['l'] + e))
    ensures "file://filfile://" + e == "file://" + ("filfile://" + e)
    ensures ("filfile://" + e)[0] == 'f' && ("fil" + e)[0] == 'f'
    ensures '\\' !in e ==> '\\' !in "filfile://" + e
  {
  }

  /** A first character where the pattern does not start is kept. */
  lemma KeepFirst(c: char, s: string, pat: string)
    requires pat != [] && !StartsWith([c] + s, pat)
    ensures RemoveAll([c] + s, pat) == [c] + RemoveAll(s, pat)
  {
    assert ([c] + s)[1..] == s;
  }

  lemma FileSplit(p: string)
    requires '\\' !in p
    ensures var url := "file://" + p;
            && !StartsWith(url, "view-source:") && !StartsWith(url, "data:text/html,")
            && !Url.IsWindowsPath(url) && Contains(url, "://")
            && SplitOnce(url, "://") == Some(("file", p))
  {
    var url := "file://" + p;
    assert url[0] == 'f' && url[1] == 'i';
    forall j | 0 <= j < 4 ensures !MatchAt(url, "://", j) {
      assert url[j] != ':';
    }
    assert url == "file" + "://" + p;
    SplitOnceAt(url, "://", "file", p);
  }

  // -----------------------------------------------------------------------
  // `_request_http` once the request is sent
  // -----------------------------------------------------------------------

  /** Why `_request_http` raised while reading the response. */
  datatype FetchError =
    | StatusLineShort(line: string)        // the status line does not split into three parts at spaces
    | FieldLineWithoutColon(line: string)  // a field line without `:`, the empty read at the end included
    | LengthNotInteger(value: string)      // `int(value)` on a `Content-Length` field
    | NegativeLength                       // `read(content_length)` with a length below -1

  /**
   * What `_request_http` returns, the fields it stored, and whether it
   * closes the socket (`true`) or hands it to the connection cache (`false`).
   */
  datatype Fetched = Fetched(text: string, headers: seq<(string, string)>, close: bool)

  /** `statusline.split(" ", 2)` unpacks into three names only when the line holds two spaces. */
  predicate TwoSpaces(line: string)
  {
    ' ' in line && ' ' in SplitAtChar(line, ' ').1
  }

  /**
   * One pass of the field loop on a line other than `"\r\n"`: a line with
   * no colon raises, and so does a `Content-Length` whose value is not an
   * integer; otherwise the loop body of the later client.
   */
  function Step(st: Http1.FieldState, line: string): (r: Result<Http1.FieldState, FetchError>)
    ensures r.Err? <==> Http1.ParseFieldLine(line).None? || NotIntegerLength(line)
    ensures r.Ok? ==> r.value == Http1.Step(st, line)
  {
    match Http1.ParseFieldLine(line)
    case None => Err(FieldLineWithoutColon(line))
    case Some((name, value)) =>
      if name == "content-length" && ParseInt(value).None? then Err(LengthNotInteger(value))
      else Ok(Http1.Absorb(st, name, value))
  }

  /** A `Content-Length` field line whose value `int()` rejects. */
  predicate NotIntegerLength(line: string)
  {
    Http1.ParseFieldLine(line).Some?
    && Http1.ParseFieldLine(line).value.0 == "content-length"
    && ParseInt(Http1.ParseFieldLine(line).value.1).None?
  }

  /**
   * The field loop from state `st` on the input `s`: it ends at the line
   * `"\r\n"` with the rest of the input left for the body, or raises. The
   * end of the input is a line without a colon, so the loop always ends.
   */
  function FieldsFrom(st: Http1.FieldState, s: string): Result<(Http1.FieldState, string), FetchError>
    decreases |s|
  {
    var (line, rest) := Http1.ReadLine(s);
    if line == "\r\n" then Ok((st, rest))
    else if line == [] then Err(FieldLineWithoutColon(line))
    else
      match Step(st, line)
      case Err(e) => Err(e)
      case Ok(st') => FieldsFrom(st', rest)
  }

  /** The `while True` loop of lines 126-138. */
  method ReadFields(input: string) returns (r: Result<(Http1.FieldState, string), FetchError>)
    ensures r == FieldsFrom(Http1.Start, input)
  {
    var headers: seq<(string, string)> := [];
    var contentLength: Option<int> := None;
    var connectionClose := false;
    var s := input;
    while true
      invariant FieldsFrom(Http1.FieldState(headers, contentLength, connectionClose), s) == FieldsFrom(Http1.Start, input)
      decreases |s|
    {
      var (line, rest) := Http1.ReadLine(s);
      if line == "\r\n" {
        return Ok((Http1.FieldState(headers, contentLength, connectionClose), rest));
      }
      if ':' !in line {
        return Err(FieldLineWithoutColon(line));
      }
      var parts := SplitAtChar(line, ':');
      var header := Lower(parts.0);
      var value := Strip(parts.1);
      headers := Http1.Assign(headers, header, value);
      if header == "content-length" {
        var n := ParseInt(value);
        if n.None? {
          return Err(LengthNotInteger(value));
        }
        contentLength := n;
      } else if header == "connection" && Lower(value) == "close" {
        connectionClose := true;
      }
      s := rest;
    }
  }

  /**
   * Lines 117-162 as written: source mode returns the status line, the
   * stored fields and everything up to the end of the input, and keeps the
   * socket unless the server asked to close it; the other mode reads the
   * body by its length, or to the end when there is none, and then closes.
   */
  function ExchangeAsWritten(response: string, sourceMode: bool): Result<Fetched, FetchError>
  {
    var (statusline, after) := Http1.ReadLine(response);
    if !TwoSpaces(statusline) then Err(StatusLineShort(statusline))
    else
      match FieldsFrom(Http1.Start, after)
      case Err(e) => Err(e)
      case Ok((st, rest)) =>
        if sourceMode then Ok(Fetched(Http1.SourceView(statusline, st.fields, rest), st.fields, st.close))
        else
          match Http1.ReadBody(st.contentLength, rest)
          case None => Err(NegativeLength)
          case Some(body) => Ok(Fetched(body, st.fields, st.close || st.contentLength.None?))
  }

  /**
   * The exchange with source mode reading the body as the other mode does:
   * by its length, or to the end and then closing.
   */
  function ExchangeSpec(response: string, sourceMode: bool): Result<Fetched, FetchError>
  {
    var (statusline, after) := Http1.ReadLine(response);
    if !TwoSpaces(statusline) then Err(StatusLineShort(statusline))
    else
      match FieldsFrom(Http1.Start, after)
      case Err(e) => Err(e)
      case Ok((st, rest)) =>
        match Http1.ReadBody(st.contentLength, rest)
        case None => Err(NegativeLength)
        case Some(body) =>
          Ok(Fetched(if sourceMode then Http1.SourceView(statusline, st.fields, body) else body,
                     st.fields, st.close || st.contentLength.None?))
  }

  /**
   * The response half of `_request_http`, step by step, as written: source
   * mode reads to the end and keeps the server's choice of closing.
   */
  method Exchange(response: string, sourceMode: bool) returns (r: Result<Fetched, FetchError>)
    ensures r == ExchangeAsWritten(response, sourceMode)
  {
    var (statusline, after) := Http1.ReadLine(response);
    if ' ' !in statusline || ' ' !in SplitAtChar(statusline, ' ').1 {
      return Err(StatusLineShort(statusline));
    }
    var fields := ReadFields(after);
    if fields.Err? {
      return Err(fields.error);
    }
    var (st, rest) := fields.value;
    var connectionClose := st.close;
    if sourceMode {
      return Ok(Fetched(Http1.SourceView(statusline, st.fields, rest), st.fields, connectionClose));
    }
    var body := Http1.ReadBody(st.contentLength, rest);
    if body.None? {
      return Err(NegativeLength);
    }
    if st.contentLength.None? {
      connectionClose := true;
    }
    r := Ok(Fetched(body.value, st.fields, connectionClose));
  }

  // -----------------------------------------------------------------------
  // What the exchange promises
  // -----------------------------------------------------------------------

  /** A field line the loop takes without raising. */
  predicate Accepted(line: string)
  {
    Http1.IsLine(line) && line != "\r\n" && Http1.ParseFieldLine(line).Some? && !NotIntegerLength(line)
  }

  /**
   * The loop over accepted field lines folds them as the later client
   * does, then goes on with whatever follows them.
   */
  lemma {:induction false} FieldsOfLines(st: Http1.FieldState, lines: seq<string>, tail: string)
    requires forall i :: 0 <= i < |lines| ==> Accepted(lines[i])
    ensures FieldsFrom(st, Http1.Concat(lines) + tail) == FieldsFrom(Http1.FoldFrom(st, lines), tail)
    decreases |lines|
  {
    if lines == [] {
      assert Http1.Concat(lines) + tail == tail;
    } else {
      var line, after := lines[0], Http1.Concat(lines[1..]) + tail;
      ConcatCons(lines, tail);
      FieldsFromStep(st, line, after);
      FieldsOfLines(Http1.Step(st, line), lines[1..], tail);
    }
  }

  lemma ConcatCons(lines: seq<string>, tail: string)
    requires lines != []
    ensures Http1.Concat(lines) + tail == lines[0] + (Http1.Concat(lines[1..]) + tail)
  {
  }

  /** One accepted line, then the rest. */
  lemma FieldsFromStep(st: Http1.FieldState, line: string, after: string)
    requires Accepted(line)
    ensures FieldsFrom(st, line + after) == FieldsFrom(Http1.Step(st, line), after)
  {
    Http1.ReadLineOf(line, after);
    assert Step(st, line) == Ok(Http1.Step(st, line));
  }

  /** Written fields without a `Content-Length` are accepted lines. */
  lemma RenderedAccepted(fields: seq<(string, string)>)
    requires forall i :: 0 <= i < |fields| ==> Http1.Writable(fields[i])
    requires Http1.NoLength(fields)
    ensures forall i :: 0 <= i < |Http1.RenderFields(fields)| ==> Accepted(Http1.RenderFields(fields)[i])
  {
    forall i | 0 <= i < |fields| ensures Accepted(Http1.RenderFields(fields)[i]) {
      Http1.FieldLineParses(fields[i].0, fields[i].1);
    }
  }

  /**
   * A field block of written fields without a `Content-Length` reads back
   * as in the later client: the same fields, lowercased, in order; the
   * close flag exactly when a field asks for it; the input after the empty
   * line left for the body.
   */
  lemma BlockReadBack(fields: seq<(string, string)>, rest: string)
    requires forall i :: 0 <= i < |fields| ==> Http1.Writable(fields[i])
    requires Http1.UniqueNames(Http1.LowerNames(fields)) && Http1.NoLength(fields)
    ensures FieldsFrom(Http1.Start, Http1.Block(fields, rest)).Ok?
    ensures var (st, r) := FieldsFrom(Http1.Start, Http1.Block(fields, rest)).value;
            && st.fields == Http1.LowerNames(fields) && st.contentLength.None?
            && (st.close <==> Http1.SomeAsksClose(fields)) && r == rest
  {
    var lines := Http1.RenderFields(fields);
    RenderedAccepted(fields);
    FieldsOfLines(Http1.Start, lines, "\r\n" + rest);
    BlockSplit(fields, rest);
    Http1.ReadLineOf("\r\n", rest);
    Http1.FieldsRoundTrip(fields);
    Http1.RenderedFlags(fields);
  }

  lemma BlockSplit(fields: seq<(string, string)>, rest: string)
    ensures Http1.Block(fields, rest) == Http1.Concat(Http1.RenderFields(fields)) + ("\r\n" + rest)
  {
  }

  /**
   * A response that ends before the empty line raises at the empty read
   * where the later client waits for ever.
   */
  lemma EndOfInputRaises(fields: seq<(string, string)>)
    requires forall i :: 0 <= i < |fields| ==> Http1.Writable(fields[i])
    requires Http1.NoLength(fields)
    ensures FieldsFrom(Http1.Start, Http1.Concat(Http1.RenderFields(fields))) == Err(FieldLineWithoutColon(""))
    ensures Http1.FieldsFrom(Http1.Start, Http1.Concat(Http1.RenderFields(fields))) == Http1.Stalled
  {
    var lines := Http1.RenderFields(fields);
    RenderedAccepted(fields);
    FieldsOfLines(Http1.Start, lines, "");
    assert Http1.Concat(lines) + "" == Http1.Concat(lines);
    StalledAtEnd(Http1.Start, lines);
  }

  lemma {:induction false} StalledAtEnd(st: Http1.FieldState, lines: seq<string>)
    requires forall i :: 0 <= i < |lines| ==> Accepted(lines[i])
    ensures Http1.FieldsFrom(st, Http1.Concat(lines)) == Http1.Stalled
    decreases |lines|
  {
    if lines != [] {
      var after := Http1.Concat(lines[1..]);
      Http1.ReadLineOf(lines[0], after);
      assert Accepted(lines[0]);
      StalledAtEnd(Http1.Step(st, lines[0]), lines[1..]);
    }
  }

  /**
   * A `Content-Length` that is not an integer raises, where the later
   * client ignores the field.
   */
  lemma LengthNotIntegerRaises(statusline: string, name: string, value: string, rest: string, sourceMode: bool)
    requires Http1.IsLine(statusline) && TwoSpaces(statusline)
    requires Lower(name) == "content-length" && Http1.Writable((name, value)) && ParseInt(value).None?
    ensures ExchangeSpec(statusline + Http1.FieldLine(name, value) + rest, sourceMode) == Err(LengthNotInteger(value))
    ensures ExchangeAsWritten(statusline + Http1.FieldLine(name, value) + rest, sourceMode) == Err(LengthNotInteger(value))
  {
    var line := Http1.FieldLine(name, value);
    StatusLineFirst(statusline, line, rest);
    LengthLineRaises(name, value, rest);
    FieldsErrorRaises(statusline + line + rest, statusline, line + rest, LengthNotInteger(value), sourceMode);
  }

  lemma StatusLineFirst(statusline: string, line: string, rest: string)
    requires Http1.IsLine(statusline)
    ensures Http1.ReadLine(statusline + line + rest) == (statusline, line + rest)
  {
    assert statusline + line + rest == statusline + (line + rest);
    Http1.ReadLineOf(statusline, line + rest);
  }

  /** An error of the field loop is the error of the exchange, in both versions. */
  lemma FieldsErrorRaises(response: string, statusline: string, after: string, e: FetchError, sourceMode: bool)
    requires Http1.ReadLine(response) == (statusline, after) && TwoSpaces(statusline)
    requires FieldsFrom(Http1.Start, after) == Err(e)
    ensures ExchangeSpec(response, sourceMode) == Err(e)
    ensures ExchangeAsWritten(response, sourceMode) == Err(e)
  {
  }

  lemma LengthLineRaises(name: string, value: string, rest: string)
    requires Lower(name) == "content-length" && Http1.Writable((name, value)) && ParseInt(value).None?
    ensures FieldsFrom(Http1.Start, Http1.FieldLine(name, value) + rest) == Err(LengthNotInteger(value))
  {
    var line := Http1.FieldLine(name, value);
    Http1.FieldLineParses(name, value);
    Http1.ReadLineOf(line, rest);
    assert Step(Http1.Start, line) == Err(LengthNotInteger(value));
  }

  /**
   * Source mode as written: with neither `Content-Length` nor
   * `Connection: close` it reads the input to its end and still hands the
   * socket to the cache, where the other mode closes it.
   */
  lemma SourceModeStoresSpentSocket(statusline: string, body: string)
    requires Http1.IsLine(statusline) && TwoSpaces(statusline)
    ensures ExchangeAsWritten(statusline + "\r\n" + body, true)
            == Ok(Fetched(Http1.SourceView(statusline, [], body), [], false))
    ensures ExchangeAsWritten(statusline + "\r\n" + body, false) == Ok(Fetched(body, [], true))
  {
    EmptyBlock(statusline, body);
  }

  lemma EmptyBlock(statusline: string, body: string)
    requires Http1.IsLine(statusline)
    ensures Http1.ReadLine(statusline + "\r\n" + body) == (statusline, "\r\n" + body)
    ensures FieldsFrom(Http1.Start, "\r\n" + body) == Ok((Http1.Start, body))
  {
    assert statusline + "\r\n" + body == statusline + ("\r\n" + body);
    Http1.ReadLineOf(statusline, "\r\n" + body);
    Http1.ReadLineOf("\r\n", body);
  }

  /**
   * With the body read alike in both modes, the two modes fail together,
   * store the same fields, close or keep the socket alike, and source mode
   * returns the status line and the fields before the same body.
   */
  lemma ModesAgree(response: string)
    ensures ExchangeSpec(response, true).Ok? <==> ExchangeSpec(response, false).Ok?
    ensures ExchangeSpec(response, true).Ok? ==>
              var a, b := ExchangeSpec(response, true).value, ExchangeSpec(response, false).value;
              && a.close == b.close && a.headers == b.headers
              && a.text == Http1.SourceView(Http1.ReadLine(response).0, b.headers, b.text)
  {
    var (statusline, after) := Http1.ReadLine(response);
    if TwoSpaces(statusline) && FieldsFrom(Http1.Start, after).Ok? {
      var (st, rest) := FieldsFrom(Http1.Start, after).value;
      var body := Http1.ReadBody(st.contentLength, rest);
      if body.Some? {
        var close := st.close || st.contentLength.None?;
        assert ExchangeSpec(response, true) == Ok(Fetched(Http1.SourceView(statusline, st.fields, body.value), st.fields, close));
        assert ExchangeSpec(response, false) == Ok(Fetched(body.value, st.fields, close));
      }
    }
  }

  /**
   * As written, without a `Content-Length` the other mode reads to the end
   * and closes, while source mode closes only when the server asked for it.
   */
  lemma NoLengthClosesAsWritten(response: string, sourceMode: bool)
    requires ExchangeAsWritten(response, sourceMode).Ok?
    requires var after := Http1.ReadLine(response).1;
             FieldsFrom(Http1.Start, after).Ok? && FieldsFrom(Http1.Start, after).value.0.contentLength.None?
    ensures !sourceMode ==> ExchangeAsWritten(response, sourceMode).value.close
    ensures sourceMode ==> ExchangeAsWritten(response, sourceMode).value.close
                             == FieldsFrom(Http1.Start, Http1.ReadLine(response).1).value.0.close
  {
  }

  /** With the corrected source mode, without a `Content-Length` the socket is closed in both modes, the body being read to the end. */
  lemma NoLengthCloses(response: string, sourceMode: bool)
    requires ExchangeSpec(response, sourceMode).Ok?
    requires var after := Http1.ReadLine(response).1;
             FieldsFrom(Http1.Start, after).Ok? && FieldsFrom(Http1.Start, after).value.0.contentLength.None?
    ensures ExchangeSpec(response, sourceMode).value.close
  {
  }

  // -----------------------------------------------------------------------
  // `request()` and `_request_view_source`
  // -----------------------------------------------------------------------

  /** What `request()` goes on to do with an object. */
  datatype Plan =
    | FetchHttp(target: UrlFields, sourceMode: bool)  // `_request_http` of the object, or of the inner one in source mode
    | ReadFile(path: string)                          // `_request_file`
    | DataText(text: string)                          // what `_request_data` returns
    | Unsupported(message: string)                    // ValueError

  /**
   * `request()`: by scheme; `view-source` hands the inner object to its own
   * dispatch, which serves http and https in source mode.
   */
  function RequestPlan(f: UrlFields): (p: Plan)
    requires WellFormed(f)
    ensures p.FetchHttp? ==> (p.sourceMode <==> f.scheme == Some("view-source"))
    ensures p.FetchHttp? ==> (p.target.scheme == Some("http") || p.target.scheme == Some("https"))
    ensures p.Unsupported? ==> f.scheme == Some("view-source")
  {
    var sch := f.scheme.value;
    if sch == "view-source" then InnerPlan(f.inner.value)
    else if sch == "http" || sch == "https" then FetchHttp(f, false)
    else if sch == "file" then ReadFile(f.path.value)
    // The scheme is data here: the constructor leaves no other, so the
    // final `raise ValueError("Unsupported scheme: ...")` is never reached.
    else DataText(Url.RequestData(f.path).value)
  }

  /** `_request_view_source` on the inner object. */
  function InnerPlan(g: UrlFields): (p: Plan)
    requires WellFormed(g)
    ensures p.FetchHttp? ==> p.sourceMode && p.target == g
    ensures p.Unsupported? <==> g.scheme == Some("view-source")
  {
    var sch := g.scheme.value;
    if sch == "http" || sch == "https" then FetchHttp(g, true)
    else if sch == "file" then ReadFile(g.path.value)
    else if sch == "data" then DataText(Url.RequestData(g.path).value)
    else Unsupported("Unsupported inner scheme: " + sch)
  }

  /**
   * A parsed URL is refused by `request()` exactly when it is a
   * `view-source:` of a `view-source:` URL, and then with the inner-scheme
   * message.
   */
  lemma UnsupportedOnlyNested(url: string)
    requires Parse(url).Ok?
    ensures RequestPlan(Parse(url).value).Unsupported? <==> StartsWith(url, "view-source:view-source:")
    ensures StartsWith(url, "view-source:view-source:") ==>
              RequestPlan(Parse(url).value) == Unsupported("Unsupported inner scheme: view-source")
  {
    DoublePrefix(url);
    if StartsWith(url, "view-source:") {
      var inner := Parse(url[12..]).value;
      assert Parse(url).value.inner == Some(inner);
    }
  }

  lemma DoublePrefix(url: string)
    ensures StartsWith(url, "view-source:view-source:")
            <==> StartsWith(url, "view-source:") && StartsWith(url[12..], "view-source:")
  {
    var p := "view-source:";
    assert p + p == "view-source:view-source:";
    if |url| >= 24 {
      assert url[..24] == url[..12] + url[12..][..12];
    }
  }
}
