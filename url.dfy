/**
 * The URL parser of RivaBrowser (`riva/url.py`, class `URL`): prefix
 * dispatch between `view-source:`, `data:text/html,`, Windows-looking file
 * paths and `scheme://`, then the host / port / path / userinfo split of
 * http and https URLs, and the data-URL body.
 *
 * Each `_handle_*` method of the source assigns the object's fields one by
 * one; here each becomes a method of the class `URL` proved against a pure
 * function over a snapshot of those fields (`UrlFields`), and the
 * properties of the parser are lemmas about those functions.
 */
module Url {
  import opened Common
  import Pool

  /** Why a URL was rejected; every one surfaces as `URLParseError`. */
  datatype ParseError =
    | TooShort                         // fewer than 3 characters
    | MissingScheme                    // no `://` and not a file path
    | UnsupportedScheme(scheme: string)
    | HostPartTooShort                 // fewer than 3 characters after the userinfo
    | InvalidPort(text: string)        // not an integer, or outside 0..65535
    | InvalidInner(cause: ParseError)  // the URL behind `view-source:` failed
    | InvalidData                      // `data:` URL without a comma

  /** The attributes of a `URL` object; `inner` is the parsed URL behind `view-source:`. */
  datatype UrlFields = UrlFields(
    originalUrl: string,
    scheme: Option<string>,
    host: Option<string>,
    port: Option<int>,
    path: Option<string>,
    auth: Option<string>,
    inner: Option<UrlFields>,
    userAgent: string)

  /** `SCHEME_PORTS`: the schemes the parser knows, with their default ports. */
  const SchemePorts: map<string, Option<int>> :=
    map["http" := Some(80), "https" := Some(443), "file" := None, "data" := None, "view-source" := None]

  const DefaultUserAgent: string := "RivaBrowser/1.0"

  /** `user_agent or "RivaBrowser/1.0"`: a missing or empty agent falls back to the default. */
  function UserAgentFor(ua: Option<string>): (r: string)
    ensures r != []
    ensures ua.Some? && ua.value != [] ==> r == ua.value
  {
    if ua.Some? && ua.value != [] then ua.value else DefaultUserAgent
  }

  /** The object right after `__init__` has set its attributes and before `_parse_url` runs. */
  function InitFields(url: string, ua: Option<string>): UrlFields
  {
    UrlFields(url, None, None, None, None, None, None, UserAgentFor(ua))
  }

  /** An error code or the object's final attributes. */
  function AsResult(err: Option<ParseError>, f: UrlFields): Result<UrlFields, ParseError>
  {
    if err.Some? then Err(err.value) else Ok(f)
  }

  // -----------------------------------------------------------------------
  // The parser as functions
  // -----------------------------------------------------------------------

  /** `URL(url, user_agent)`: the parsed object, or the reason it is rejected. */
  function Parse(url: string, ua: Option<string>): (r: Result<UrlFields, ParseError>)
    ensures r.Ok? ==> |url| >= 3 && r.value.originalUrl == url && r.value.userAgent == UserAgentFor(ua)
    ensures r.Ok? ==> r.value.scheme.Some? && r.value.scheme.value in SchemePorts
    decreases |url|, 2
  {
    Dispatch(InitFields(url, ua), url)
  }

  /** `_parse_url`: the first prefix rule that applies decides. */
  function Dispatch(f: UrlFields, url: string): (r: Result<UrlFields, ParseError>)
    ensures r.Ok? ==> |url| >= 3 && r.value.originalUrl == f.originalUrl && r.value.userAgent == f.userAgent
    ensures r.Ok? ==> r.value.scheme.Some? && r.value.scheme.value in SchemePorts
    decreases |url|, 1
  {
    if |url| < 3 then Err(TooShort)
    else if StartsWith(url, "view-source:") then ViewSourceSpec(f, url)
    else if StartsWith(url, "data:text/html,") then DataSpec(f, url)
    else if IsWindowsPath(url) then Ok(FileSpec(f, url))
    else if !Contains(url, "://") && !IsWindowsPath(url) then Err(MissingScheme)
    else GenericSpec(f, url)
  }

  /** `_handle_view_source`: the rest of the string is parsed as a URL of its own, with the default agent. */
  function ViewSourceSpec(f: UrlFields, url: string): Result<UrlFields, ParseError>
    requires StartsWith(url, "view-source:")
    decreases |url|, 0
  {
    match Parse(url[12..], None)
    case Ok(inner) => Ok(f.(scheme := Some("view-source"), inner := Some(inner)))
    case Err(e) => Err(InvalidInner(e))
  }

  /** `_handle_data`: the path is what follows the first comma. */
  function DataSpec(f: UrlFields, url: string): Result<UrlFields, ParseError>
  {
    match SplitOnce(url, ",")
    case Some((_, after)) => Ok(f.(scheme := Some("data"), path := Some(after)))
    case None => Err(InvalidData)
  }

  /** `_handle_file`: the argument itself, or what follows `file://` without its leading slashes. */
  function FileSpec(f: UrlFields, url: string): UrlFields
  {
    f.(scheme := Some("file"), path := Some(if StartsWith(url, "file://") then DropSlashes(url[7..]) else url))
  }

  /** `_handle_generic`: the scheme is the text before the first `://`. */
  function GenericSpec(f: UrlFields, url: string): Result<UrlFields, ParseError>
  {
    match SplitOnce(url, "://")
    case None => Ok(FileSpec(f, url))
    case Some((s, rest)) =>
      if s !in SchemePorts then Err(UnsupportedScheme(s))
      else if s == "http" || s == "https" then HttpSpec(f.(scheme := Some(s)), rest)
      else if s == "file" then Ok(FileSpec(f.(scheme := Some(s)), rest))
      else Ok(f.(scheme := Some(s)))
  }

  /** `_handle_http` on the text after `scheme://`: userinfo, then the length check. */
  function HttpSpec(f: UrlFields, rest: string): (r: Result<UrlFields, ParseError>)
    requires f.scheme == Some("http") || f.scheme == Some("https")
    ensures r.Ok? ==> HttpShaped(f, r.value)
  {
    var f1 := if '@' in rest then f.(auth := Some(SplitAtChar(rest, '@').0)) else f;
    var r := if '@' in rest then SplitAtChar(rest, '@').1 else rest;
    if |r| < 3 then Err(HostPartTooShort) else LocateSpec(f1, r)
  }

  /** The host and path of `_handle_http`: the text before the first `/` is the host part. */
  function LocateSpec(f: UrlFields, r: string): (res: Result<UrlFields, ParseError>)
    requires f.scheme == Some("http") || f.scheme == Some("https")
    ensures res.Ok? ==> HttpShaped(f, res.value) && res.value.auth == f.auth
  {
    var r2 := if '/' in r then r else r + "/";
    var hostPart := SplitAtChar(r2, '/').0;
    var f1 := f.(host := Some(hostPart), path := Some("/" + SplitAtChar(r2, '/').1));
    if ':' in hostPart then HostPortSpec(f1, hostPart)
    else Ok(f1.(port := SchemePorts[f.scheme.value]))
  }

  /** The port of `_handle_http` when the host part holds a colon. */
  function HostPortSpec(f: UrlFields, hostPart: string): (r: Result<UrlFields, ParseError>)
    requires ':' in hostPart
    ensures r.Ok? ==> r.value == f.(host := r.value.host, port := r.value.port)
    ensures r.Ok? ==> r.value.host.Some? && ':' !in r.value.host.value && r.value.host.value + [':'] <= hostPart
    ensures r.Ok? ==> r.value.port.Some? && 0 <= r.value.port.value <= 65535
  {
    var portText := SplitAtChar(hostPart, ':').1;
    match PortNumber(portText)
    case Some(n) => Ok(f.(host := Some(SplitAtChar(hostPart, ':').0), port := Some(n)))
    case None => Err(InvalidPort(portText))
  }

  /**
   * What `_handle_http` promises on success: the scheme and the other
   * attributes kept, a host with neither `/` nor `:`, a port in 0..65535 and
   * a path that starts with `/`.
   */
  predicate HttpShaped(f: UrlFields, g: UrlFields)
  {
    && g == f.(host := g.host, port := g.port, path := g.path, auth := g.auth)
    && g.host.Some? && '/' !in g.host.value && ':' !in g.host.value
    && g.port.Some? && 0 <= g.port.value <= 65535
    && g.path.Some? && |g.path.value| > 0 && g.path.value[0] == '/'
  }

  /** `int(port)` followed by the range check: a port number in 0..65535, or nothing. */
  function PortNumber(text: string): (r: Option<int>)
    ensures r.Some? <==> ParseInt(text).Some? && 0 <= ParseInt(text).value <= 65535
    ensures r.Some? ==> r == ParseInt(text)
  {
    match ParseInt(text)
    case Some(n) => if 0 <= n <= 65535 then Some(n) else None
    case None => None
  }

  /** `_is_windows_path`: a backslash anywhere, or a drive colon in second place. */
  predicate IsWindowsPath(url: string)
  {
    '\\' in url || (|url| > 1 && url[1] == ':')
  }

  /** The `while path.startswith('/')` loop of `_handle_file`. */
  function DropSlashes(s: string): (r: string)
    ensures |r| <= |s| && r == s[|s| - |r|..]
    ensures !StartsWith(r, "/")
    ensures forall i :: 0 <= i < |s| - |r| ==> s[i] == '/'
  {
    if |s| > 0 && s[0] == '/' then DropSlashes(s[1..]) else s
  }

  /**
   * `_request_data`: the body of a data URL, without a second `text/html,`
   * prefix when it has one; a `data://` URL has no path and fails.
   */
  function RequestData(path: Option<string>): (r: Option<string>)
    ensures r.None? <==> path.None?
    ensures path.Some? && !StartsWith(path.value, "text/html,") ==> r == path
    ensures path.Some? && StartsWith(path.value, "text/html,") ==> path.value == "text/html," + r.value
  {
    if path.None? then None
    else if StartsWith(path.value, "text/html,") then Some(path.value[10..])
    else path
  }

  // -----------------------------------------------------------------------
  // The URL object
  // -----------------------------------------------------------------------

  class URL {
    const originalUrl: string
    const userAgent: string
    var scheme: Option<string>
    var host: Option<string>
    var port: Option<int>
    var path: Option<string>
    var auth: Option<string>
    var inner: Option<UrlFields>

    function Fields(): UrlFields
      reads this
    {
      UrlFields(originalUrl, scheme, host, port, path, auth, inner, userAgent)
    }

    /** The attribute assignments at the top of `__init__`. */
    constructor Init(url: string, ua: Option<string>)
      ensures Fields() == InitFields(url, ua)
    {
      originalUrl := url;
      userAgent := UserAgentFor(ua);
      scheme, host, port, path, auth, inner := None, None, None, None, None, None;
    }

    /** `URL(url, user_agent)`: a new parsed object, or the `URLParseError` the constructor raises. */
    static method New(url: string, ua: Option<string>) returns (r: Result<URL, ParseError>)
      decreases |url|, 2
      ensures r.Ok? ==> fresh(r.value) && Parse(url, ua) == Ok(r.value.Fields())
      ensures r.Err? ==> Parse(url, ua) == Err(r.error)
    {
      var u := new URL.Init(url, ua);
      var err := u.ParseUrl(url);
      if err.Some? {
        return Err(err.value);
      }
      return Ok(u);
    }

    /** `_parse_url`. */
    method ParseUrl(url: string) returns (err: Option<ParseError>)
      modifies this
      decreases |url|, 1
      ensures AsResult(err, Fields()) == Dispatch(old(Fields()), url)
    {
      if |url| < 3 {
        return Some(TooShort);
      }
      if StartsWith(url, "view-source:") {
        err := HandleViewSource(url);
      } else if StartsWith(url, "data:text/html,") {
        err := HandleData(url);
      } else if IsWindowsPath(url) {
        HandleFile(url);
        err := None;
      } else {
        if !Contains(url, "://") && !IsWindowsPath(url) {
          return Some(MissingScheme);
        }
        err := HandleGeneric(url);
      }
    }

    /** `_handle_view_source`. */
    method HandleViewSource(url: string) returns (err: Option<ParseError>)
      requires StartsWith(url, "view-source:")
      modifies this
      decreases |url|, 0
      ensures AsResult(err, Fields()) == ViewSourceSpec(old(Fields()), url)
    {
      scheme := Some("view-source");
      var r := New(url[12..], None);
      if r.Err? {
        return Some(InvalidInner(r.error));
      }
      inner := Some(r.value.Fields());
      return None;
    }

    /** `_handle_data`. */
    method HandleData(url: string) returns (err: Option<ParseError>)
      modifies this
      ensures AsResult(err, Fields()) == DataSpec(old(Fields()), url)
    {
      scheme := Some("data");
      var parts := SplitOnce(url, ",");
      if parts.None? {
        return Some(InvalidData);
      }
      path := Some(parts.value.1);
      return None;
    }

    /** `_handle_file`, with its slash-stripping loop. */
    method HandleFile(url: string)
      modifies this
      ensures Fields() == FileSpec(old(Fields()), url)
    {
      scheme := Some("file");
      if StartsWith(url, "file://") {
        var p := url[7..];
        while StartsWith(p, "/")
          invariant DropSlashes(p) == DropSlashes(url[7..])
          decreases |p|
        {
          p := p[1..];
        }
        path := Some(p);
      } else {
        path := Some(url);
      }
    }

    /** `_handle_generic`. */
    method HandleGeneric(url: string) returns (err: Option<ParseError>)
      modifies this
      ensures AsResult(err, Fields()) == GenericSpec(old(Fields()), url)
    {
      var parts := SplitOnce(url, "://");
      if parts.None? {
        HandleFile(url);
        return None;
      }
      var s, rest := parts.value.0, parts.value.1;
      scheme := Some(s);
      if s !in SchemePorts {
        return Some(UnsupportedScheme(s));
      }
      if s == "http" || s == "https" {
        err := HandleHttp(rest);
      } else if s == "file" {
        HandleFile(rest);
        err := None;
      } else {
        err := None;
      }
    }

    /** `_handle_http`. */
    method HandleHttp(rest: string) returns (err: Option<ParseError>)
      requires scheme == Some("http") || scheme == Some("https")
      modifies this
      ensures AsResult(err, Fields()) == HttpSpec(old(Fields()), rest)
    {
      var r := rest;
      if '@' in r {
        var parts := SplitAtChar(r, '@');
        auth := Some(parts.0);
        r := parts.1;
      }
      if |r| < 3 {
        return Some(HostPartTooShort);
      }
      err := Locate(r);
    }

    /** The host and path assignments of `_handle_http`. */
    method Locate(r: string) returns (err: Option<ParseError>)
      requires scheme == Some("http") || scheme == Some("https")
      modifies this
      ensures AsResult(err, Fields()) == LocateSpec(old(Fields()), r)
    {
      var r2 := r;
      if '/' !in r2 {
        r2 := r2 + "/";
      }
      var parts := SplitAtChar(r2, '/');
      host := Some(parts.0);
      path := Some("/" + parts.1);
      if ':' in parts.0 {
        err := SplitHostPort(parts.0);
      } else {
        port := SchemePorts[scheme.value];
        err := None;
      }
    }

    /** The `host.split(":", 1)` branch of `_handle_http`, with `int(port)` and the range check. */
    method SplitHostPort(hostPart: string) returns (err: Option<ParseError>)
      requires ':' in hostPart
      modifies this
      ensures AsResult(err, Fields()) == HostPortSpec(old(Fields()), hostPart)
    {
      var hp := SplitAtChar(hostPart, ':');
      ghost var f0 := Fields();
      host := Some(hp.0);
      match PortNumber(hp.1)
      case None =>
        err := Some(InvalidPort(hp.1));
      case Some(n) =>
        port := Some(n);
        assert Fields() == f0.(host := Some(hp.0), port := Some(n));
        err := None;
    }
  }

  // -----------------------------------------------------------------------
  // Properties of the parser
  // -----------------------------------------------------------------------

  /** Fewer than three characters is always a parse error. */
  lemma ShortRejected(url: string, ua: Option<string>)
    requires |url| < 3
    ensures Parse(url, ua) == Err(TooShort)
  {
  }

  /**
   * `view-source:X` succeeds exactly when `X` parses on its own (with the
   * default agent, whatever agent the outer URL was given), and holds that
   * parse as its inner URL.
   */
  lemma ViewSourceWraps(url: string, ua: Option<string>)
    requires StartsWith(url, "view-source:")
    ensures Parse(url, ua).Ok? <==> Parse(url[12..], None).Ok?
    ensures Parse(url[12..], None).Ok? ==>
              Parse(url, ua) == Ok(InitFields(url, ua).(scheme := Some("view-source"),
                                                        inner := Some(Parse(url[12..], None).value)))
    ensures Parse(url[12..], None).Err? ==> Parse(url, ua) == Err(InvalidInner(Parse(url[12..], None).error))
  {
    assert Parse(url, ua) == ViewSourceSpec(InitFields(url, ua), url);
  }

  /** A `data:text/html,` URL always parses, with everything after the first comma as its path. */
  lemma DataPathAfterComma(body: string, ua: Option<string>)
    ensures var url := "data:text/html," + body;
      Parse(url, ua) == Ok(InitFields(url, ua).(scheme := Some("data"), path := Some(body)))
  {
    var url := "data:text/html," + body;
    assert url[..12] != "view-source:" by { assert url[0] == 'd'; }
    assert StartsWith(url, "data:text/html,");
    forall j | 0 <= j < 14
      ensures !MatchAt(url, ",", j)
    {
      assert url[j..j + 1][0] == url[j];
    }
    SplitOnceAt(url, ",", "data:text/html", body);
  }

  /**
   * Parsing `data:text/html,<body>` and then requesting it gives the body
   * back, unless the body itself starts with a second `text/html,`.
   */
  lemma DataRoundTrip(body: string, ua: Option<string>)
    requires !StartsWith(body, "text/html,")
    ensures var r := Parse("data:text/html," + body, ua);
      r.Ok? && RequestData(r.value.path) == Some(body)
  {
    DataPathAfterComma(body, ua);
  }

  /**
   * A Windows-looking string (one that is not `view-source:` or
   * `data:text/html,`) is a file URL whose path is the string itself, or,
   * after `file://`, the rest without leading slashes.
   */
  lemma WindowsPathIsFile(url: string, ua: Option<string>)
    requires |url| >= 3 && IsWindowsPath(url)
    requires !StartsWith(url, "view-source:") && !StartsWith(url, "data:text/html,")
    ensures Parse(url, ua).Ok?
    ensures Parse(url, ua).value.scheme == Some("file")
    ensures !StartsWith(url, "file://") ==> Parse(url, ua).value.path == Some(url)
    ensures StartsWith(url, "file://") ==> Parse(url, ua).value.path == Some(DropSlashes(url[7..]))
  {
  }

  /**
   * `ftp://` is not a scheme of `SCHEME_PORTS`, so it is rejected (a
   * backslash anywhere would make the string a Windows path instead).
   */
  lemma FtpRejected(rest: string, ua: Option<string>)
    requires '\\' !in rest
    ensures Parse("ftp://" + rest, ua) == Err(UnsupportedScheme("ftp"))
  {
    var url := "ftp://" + rest;
    assert !StartsWith(url, "view-source:") && !StartsWith(url, "data:text/html,") by { assert url[0] == 'f'; }
    assert url[1] == 't' && '\\' !in url;
    forall j | 0 <= j < 3
      ensures !MatchAt(url, "://", j)
    {
      assert url[j] != ':';
      if j + 3 <= |url| {
        assert url[j..j + 3][0] == url[j];
      }
    }
    SplitOnceAt(url, "://", "ftp", rest);
  }

  /** The text `:<port>` that names a port after the host, or nothing. */
  function PortSuffix(port: Option<nat>): string
  {
    if port.Some? then ":" + NatToString(port.value) else ""
  }

  /** The text `<userinfo>@` before the host, or nothing. */
  function AuthPrefix(auth: Option<string>): string
  {
    if auth.Some? then auth.value + "@" else ""
  }

  /** The http(s) URL spelled by its parts. */
  function HttpUrl(scheme: string, auth: Option<string>, host: string, port: Option<nat>, path: string): string
  {
    scheme + "://" + (AuthPrefix(auth) + (host + PortSuffix(port) + path))
  }

  /** The attributes a well-formed http(s) URL should parse to. */
  function HttpFields(url: string, ua: Option<string>, scheme: string, auth: Option<string>, host: string,
                      port: Option<nat>, path: string): UrlFields
    requires scheme in SchemePorts
  {
    InitFields(url, ua).(scheme := Some(scheme), host := Some(host),
                         port := if port.Some? then Some(port.value as int) else SchemePorts[scheme],
                         path := Some(path), auth := auth)
  }

  /** No character of a port suffix is a `/`, a `@` or a backslash. */
  lemma PortSuffixChars(port: Option<nat>)
    ensures '/' !in PortSuffix(port) && '@' !in PortSuffix(port) && '\\' !in PortSuffix(port)
  {
    if port.Some? {
      var d := NatToString(port.value);
      assert forall i :: 0 <= i < |d| ==> IsDigit(d[i]);
      assert PortSuffix(port) == [':'] + d;
    }
  }

  /** The port branch of `_handle_http` reads back a host and a port written as `host:port`. */
  lemma HostPortRoundTrip(f: UrlFields, host: string, port: nat)
    requires ':' !in host && port <= 65535
    ensures ':' in host + PortSuffix(Some(port))
    ensures HostPortSpec(f, host + PortSuffix(Some(port))) == Ok(f.(host := Some(host), port := Some(port as int)))
  {
    var d := NatToString(port);
    assert host + PortSuffix(Some(port)) == host + [':'] + d;
    SplitAtCharOf(host, ':', d);
    ParseIntNatToString(port);
  }

  /** The host/port/path split of `_handle_http` reads back the parts it was given. */
  lemma LocateRoundTrip(f: UrlFields, host: string, port: Option<nat>, path: string)
    requires f.scheme == Some("http") || f.scheme == Some("https")
    requires '/' !in host && ':' !in host
    requires port.Some? ==> port.value <= 65535
    requires path != [] && path[0] == '/'
    ensures LocateSpec(f, host + PortSuffix(port) + path)
            == Ok(f.(host := Some(host), path := Some(path),
                     port := if port.Some? then Some(port.value as int) else SchemePorts[f.scheme.value]))
  {
    var hp := host + PortSuffix(port);
    PortSuffixChars(port);
    var r := hp + path;
    assert r == hp + ['/'] + path[1..];
    SplitAtCharOf(hp, '/', path[1..]);
    assert "/" + path[1..] == path;
    var f1 := f.(host := Some(hp), path := Some(path));
    assert LocateSpec(f, r) == if ':' in hp then HostPortSpec(f1, hp) else Ok(f1.(port := SchemePorts[f.scheme.value]));
    if port.Some? {
      HostPortRoundTrip(f1, host, port.value);
    } else {
      assert hp == host && ':' !in hp;
    }
  }

  /** A string `http://...` or `https://...` without backslashes goes straight to `_handle_http`. */
  lemma HttpDispatch(scheme: string, rest: string, ua: Option<string>)
    requires scheme == "http" || scheme == "https"
    requires '\\' !in rest
    ensures var url := scheme + "://" + rest;
      Parse(url, ua) == HttpSpec(InitFields(url, ua).(scheme := Some(scheme)), rest)
  {
    var url := scheme + "://" + rest;
    assert !StartsWith(url, "view-source:") && !StartsWith(url, "data:text/html,") by { assert url[0] == 'h'; }
    assert !IsWindowsPath(url) by { assert url[1] == 't'; }
    forall j | 0 <= j < |scheme|
      ensures !MatchAt(url, "://", j)
    {
      assert url[j] != ':';
      if j + 3 <= |url| {
        assert url[j..j + 3][0] == url[j];
      }
    }
    SplitOnceAt(url, "://", scheme, rest);
    var f0 := InitFields(url, ua);
    assert Contains(url, "://");
    assert Dispatch(f0, url) == GenericSpec(f0, url);
  }

  /** The userinfo step of `_handle_http` takes exactly the text before the one `@`. */
  lemma AuthSplit(f: UrlFields, auth: Option<string>, tail: string)
    requires f.scheme == Some("http") || f.scheme == Some("https")
    requires auth.Some? ==> '@' !in auth.value
    requires '@' !in tail && |tail| >= 3
    ensures HttpSpec(f, AuthPrefix(auth) + tail) == LocateSpec(f.(auth := if auth.Some? then auth else f.auth), tail)
  {
    if auth.Some? {
      assert AuthPrefix(auth) + tail == auth.value + ['@'] + tail;
      SplitAtCharOf(auth.value, '@', tail);
    } else {
      assert AuthPrefix(auth) + tail == tail;
    }
  }

  /**
   * Round trip: an http or https URL written out from a scheme, optional
   * userinfo, host, optional port and path parses back to exactly those
   * parts, with the scheme's default port when none is written.
   */
  lemma HttpRoundTrip(scheme: string, auth: Option<string>, host: string, port: Option<nat>, path: string,
                      ua: Option<string>)
    requires scheme == "http" || scheme == "https"
    requires auth.Some? ==> '@' !in auth.value && '\\' !in auth.value
    requires '/' !in host && ':' !in host && '@' !in host && '\\' !in host
    requires port.Some? ==> port.value <= 65535
    requires path != [] && path[0] == '/' && '@' !in path && '\\' !in path
    requires |host + PortSuffix(port) + path| >= 3
    ensures var url := HttpUrl(scheme, auth, host, port, path);
      Parse(url, ua) == Ok(HttpFields(url, ua, scheme, auth, host, port, path))
  {
    var url := HttpUrl(scheme, auth, host, port, path);
    var rest := AuthPrefix(auth) + (host + PortSuffix(port) + path);
    HttpUrlChars(auth, host, port, path);
    HttpDispatch(scheme, rest, ua);
    HttpSpecRoundTrip(InitFields(url, ua).(scheme := Some(scheme)), auth, host, port, path);
  }

  /** `_handle_http` alone reads back userinfo, host, port and path. */
  lemma HttpSpecRoundTrip(f: UrlFields, auth: Option<string>, host: string, port: Option<nat>, path: string)
    requires f.scheme == Some("http") || f.scheme == Some("https")
    requires f.auth.None?
    requires auth.Some? ==> '@' !in auth.value && '\\' !in auth.value
    requires '/' !in host && ':' !in host && '@' !in host && '\\' !in host
    requires port.Some? ==> port.value <= 65535
    requires path != [] && path[0] == '/' && '@' !in path && '\\' !in path
    requires |host + PortSuffix(port) + path| >= 3
    ensures HttpSpec(f, AuthPrefix(auth) + (host + PortSuffix(port) + path))
            == Ok(f.(host := Some(host), path := Some(path), auth := auth,
                     port := if port.Some? then Some(port.value as int) else SchemePorts[f.scheme.value]))
  {
    var tail := host + PortSuffix(port) + path;
    HttpUrlChars(auth, host, port, path);
    AuthSplit(f, auth, tail);
    LocateRoundTrip(f.(auth := auth), host, port, path);
  }

  lemma HttpUrlChars(auth: Option<string>, host: string, port: Option<nat>, path: string)
    requires auth.Some? ==> '\\' !in auth.value
    requires '@' !in host && '\\' !in host && '@' !in path && '\\' !in path
    ensures '@' !in host + PortSuffix(port) + path
    ensures '\\' !in AuthPrefix(auth) + (host + PortSuffix(port) + path)
  {
    PortSuffixChars(port);
  }

  /**
   * The parser and the pool disagree: a URL with an empty host or port 0
   * parses, but `ConnectionCache.get` then rejects its key, so requesting
   * it fails with "Connection failed"; those are the only two such cases.
   */
  lemma ParsedButRefusedByPool(scheme: string, host: string, port: nat, path: string, ua: Option<string>)
    requires scheme == "http" || scheme == "https"
    requires '/' !in host && ':' !in host && '@' !in host && '\\' !in host
    requires port <= 65535
    requires path != [] && path[0] == '/' && '@' !in path && '\\' !in path
    ensures var url := HttpUrl(scheme, None, host, Some(port), path);
      && Parse(url, ua).Ok?
      && (Pool.CheckKey(host, port, scheme).Some? <==> host == [] || port == 0)
  {
    var d := NatToString(port);
    assert |host + PortSuffix(Some(port)) + path| >= 3;
    HttpRoundTrip(scheme, None, host, Some(port), path, ua);
  }
}
