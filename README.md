# A verified model of the simple-web-browser HTTP client

The repository holds two generations of a small Python web client.

- **RivaBrowser** is the later one:
  - a URL parser (`riva/url.py`) that dispatches on prefixes (`view-source:`, `data:text/html,`, Windows paths and `file`, then `scheme://`);
  - an HTTP/1.1 exchange that writes a GET request and reads the status line, the field lines and the body;
  - a least-recently-used connection pool with expiry, liveness probing and counters (`riva/cache.py`);
  - the glue around an HTTP/2 codec (`riva/http2.py`);
  - a small security policy (`riva/security.py`).
- **WebBrowser** is the first generation:
  - a URL parser without a port range check and an HTTP/1.1 exchange with a "source mode" (`riva/url.py`);
  - a single-file browser that speaks HTTP/1.0 (`browser.py`);
  - a plain dictionary of sockets (`riva/cache.py`);
  - a character-level tag stripper that decodes `&lt;` and `&gt;` (`riva/utils.py`).

The Dafny modules follow those files one by one:

| module | file | form |
|---|---|---|
| `Common` | Python built-ins the code relies on | functions: `str.find`, `split`, `strip`, ASCII `lower`/`casefold`, `int()`, `str()` |
| `Pool` | `RivaBrowser/riva/cache.py` | class `ConnectionCache` (key order as a `seq`, entries as a `map`, counters as fields), each method proved against a function on a state snapshot |
| `Url` | `RivaBrowser/riva/url.py`, parsing | class `URL` whose `_handle_*` methods assign fields, proved against pure functions |
| `Http1` | `RivaBrowser/riva/url.py`, `_request_http` | methods with loops (request built with `+=`, the field loop) proved against pure functions over the response text |
| `Http2` | `RivaBrowser/riva/http2.py` | class `HTTP2Connection` with the codec and the socket as inputs |
| `Security` | `RivaBrowser/riva/security.py` | functions and lemmas |
| `LegacyUrl` | `WebBrowser/riva/url.py` | class `URL` and the exchange with its source mode |
| `LegacyBrowser` | `WebBrowser/browser.py` | the HTTP/1.0 request, the exchange, `request()` dispatch, `show` |
| `LegacyCache` | `WebBrowser/riva/cache.py` | class `ConnectionCache` over an insertion-ordered list of entries |
| `LegacyShow` | `WebBrowser/riva/utils.py` | `show` as a loop returning what it prints |

Conventions used throughout:

- The outside world enters as parameters:
  - the clock is an integer `now`;
  - the liveness probe is a predicate `alive` on an abstract handle (a socket or an HTTP/2 session);
  - a failing `close` is a predicate `closeFails`;
  - the server's reply is the text of the whole response;
  - the HTTP/2 handshake and the events of one read are a `Handshake` value and an event list.
- What `print` writes is returned as a string.
- An exception is an error value of a `Result` or `Option`, one variant per kind of failure. The message text of re-wrapped exceptions is not kept.
- Python dictionaries keep insertion order. A dictionary is modelled as a sequence of pairs, or as a key sequence beside a map.

Properties are stated against the HTTP standards the code follows:

- request and response framing: sections 3 to 6 of RFC 9112;
- case-insensitive field names: section 5.1 of RFC 9110;
- Base64 for the `Authorization: Basic` field: section 4 of RFC 4648 and section 2 of RFC 7617;
- HTTP/2 pseudo-header fields: sections 8.2.1 and 8.3.1 of RFC 9113;
- the policy header: section 2.2 of W3C Content Security Policy Level 3.

## Model

| member | source | states |
|---|---|---|
| Pool.CheckConfig | RivaBrowser/riva/cache.py:82-85 | construction succeeds exactly when timeout and pool size are positive; a bad timeout is reported first |
| Pool.CheckKey | RivaBrowser/riva/cache.py:175-180 | a key is accepted exactly when the host is non-empty, the port is in 1..65535 and the scheme is http or https; the host is checked first, then the port |
| Pool.ExpiredKeys | RivaBrowser/riva/cache.py:124-127 | the expired keys are exactly the pooled keys with `now - ts > timeout`, in pool order, without repeats |
| Pool.Without | RivaBrowser/riva/cache.py:264-289 | popping a key removes exactly that key, keeps the order free of repeats, and shortens the order by one when the key was present |
| Pool.RemoveEffect | RivaBrowser/riva/cache.py:264-289 | `_remove_connection` takes exactly that key out of the order and the map and closes its handle; only the lifetime average changes, and the failure count grows by exactly `RemoveFailures` |
| Pool.RemoveFailures | RivaBrowser/riva/cache.py:271-289 | removing a key counts at most one failure, none with metrics off, and none when the close succeeds and a connection has been counted |
| Pool.MakeRoomEffect | RivaBrowser/riva/cache.py:235-240 | the first half of `store` keeps the invariant and leaves the key absent with the pool below its maximum; a new key into a full pool costs the front key |
| Pool.StoreKeepsInv | RivaBrowser/riva/cache.py:208-254 | `store` keeps one entry per key and never leaves more than `max_pool_size` entries |
| Pool.StoreOneEntryPerKey | RivaBrowser/riva/cache.py:242-254 | after a successful store the key is held once, at the most recently used end, with the new handle and `now`; after a refused one it is absent; the result is true exactly when the probe succeeds |
| Pool.StoreCounters | RivaBrowser/riva/cache.py:235-254 | a replaced entry is closed first and a full pool loses its front key (one eviction); a dead handle adds one failure, a live one adds one connection, each failing close adds its failure; with metrics off no counter moves |
| Pool.GetMiss | RivaBrowser/riva/cache.py:201-206 | `get` on an absent key returns None, adds one miss and changes nothing else |
| Pool.GetHit | RivaBrowser/riva/cache.py:185-194 | `get` on a fresh live entry returns its handle, moves the key to the most recently used end with its timestamp unchanged, adds one hit and closes nothing |
| Pool.GetStale | RivaBrowser/riva/cache.py:196-200 | `get` on an expired or dead entry returns None, removes and closes it, and adds one miss and one failure (plus the failure of a close that raises) but no eviction and no connection; with metrics off no counter moves |
| Pool.GetKeepsInv | RivaBrowser/riva/cache.py:160-206 | every path of `get` keeps the pool invariant |
| Pool.RemoveAllEntries | RivaBrowser/riva/cache.py:128-132 | removing distinct present keys takes exactly those keys out of the map and keeps the invariant |
| Pool.RemoveAllOrder | RivaBrowser/riva/cache.py:128-132 | the remaining keys keep their order |
| Pool.RemoveAllCloses | RivaBrowser/riva/cache.py:128-132 | the removed handles are closed in list order |
| Pool.RemoveAllCounters | RivaBrowser/riva/cache.py:128-132 | removal leaves hits, misses and the connection count alone and counts one eviction per key when evictions are counted |
| Pool.SweepRemovesExactlyExpired | RivaBrowser/riva/cache.py:122-132 | one sweep pass removes exactly the entries older than the timeout, keeps the rest unchanged and in order, and adds one eviction per removed entry |
| Pool.CloseAllEmpties | RivaBrowser/riva/cache.py:326-335 | `close_all` closes every pooled handle in order and empties the pool; a second call changes nothing |
| Pool.StoreNewKey | RivaBrowser/riva/cache.py:239-254 | a new key with a live handle goes to the back; in a full pool the front key is evicted and its handle closed first |
| Pool.LruEvictsLeastRecentlyUsed | RivaBrowser/riva/cache.py:185-194 | in a pool of two filled with k1 then k2, a hit on k1 followed by a store of k3 evicts k2, not k1 |
| Pool.ReuseDropsConnection | RivaBrowser/riva/cache.py:235-246 | as written, putting back a connection that `get` returned closes it and then refuses it |
| Pool.StoreKeepKeepsInv | RivaBrowser/riva/cache.py:235-254 | the corrected `store` keeps the invariant and agrees with the original whenever the handle is new to the key |
| Pool.ReuseKeepsConnection | RivaBrowser/riva/url.py:431-435 | with the corrected `store`, a reused connection stays pooled, open and most recently used, with nothing closed |
| Pool.ConnectionCache.constructor | RivaBrowser/riva/cache.py:82-109 | a new pool is valid and empty with the given configuration |
| Pool.ConnectionCache.Create | RivaBrowser/riva/cache.py:82-85 | construction raises exactly on a non-positive timeout or pool size, with that error; otherwise the pool is empty |
| Pool.ConnectionCache.RemoveConnection | RivaBrowser/riva/cache.py:264-289 | the method reaches the state `_remove_connection` specifies: key out of order and map |
| Pool.ConnectionCache.Evict | RivaBrowser/riva/cache.py:256-262 | a removal that also counts an eviction |
| Pool.ConnectionCache.RemoveOldest | RivaBrowser/riva/cache.py:256-262 | `_remove_oldest` drops the front key of a non-empty pool |
| Pool.ConnectionCache.Get | RivaBrowser/riva/cache.py:160-206 | a rejected key raises and changes nothing; otherwise the result and new state are those of the get specification |
| Pool.ConnectionCache.Touch | RivaBrowser/riva/cache.py:185-194 | the hit path reaches the hit state |
| Pool.ConnectionCache.DropStale | RivaBrowser/riva/cache.py:196-200 | the stale path reaches the stale state |
| Pool.ConnectionCache.Lookup | RivaBrowser/riva/cache.py:182-206 | the three paths of `get` after validation |
| Pool.ConnectionCache.Store | RivaBrowser/riva/cache.py:208-254 | a rejected key raises; otherwise `store` as written (a handle the key already holds is closed first), with the pool never above its maximum |
| Pool.ConnectionCache.MakeRoomFor | RivaBrowser/riva/cache.py:235-240 | afterwards the key is absent and the pool is below its maximum |
| Pool.ConnectionCache.Admit | RivaBrowser/riva/cache.py:242-254 | the probe decides whether the entry is added |
| Pool.ConnectionCache.Sweep | RivaBrowser/riva/cache.py:122-132 | one pass of the cleaner loop reaches the sweep state |
| Pool.ConnectionCache.CloseAll | RivaBrowser/riva/cache.py:326-335 | every handle is closed and the pool is empty |
| Pool.ConnectionCache.GetMetrics | RivaBrowser/riva/cache.py:305-324 | the snapshot copies every counter, the size, the maximum and the lifetime average, and the hit ratio lies in 0..1 and equals hits over lookups when there was a lookup |
| Url.UserAgentFor | RivaBrowser/riva/url.py:103 | a missing or empty agent falls back to the default, and the agent is never empty |
| Url.Parse | RivaBrowser/riva/url.py:86-104 | a parsed URL is at least three characters long, keeps the text and agent it was given, and has a scheme of `SCHEME_PORTS` |
| Url.Dispatch | RivaBrowser/riva/url.py:119-134 | every branch of `_parse_url` ends in a scheme of `SCHEME_PORTS` |
| Url.HttpSpec | RivaBrowser/riva/url.py:196-203 | a successful `_handle_http` leaves a host and a port and a path starting with `/` |
| Url.LocateSpec | RivaBrowser/riva/url.py:205-220 | host and path come from the first `/` and the userinfo is untouched |
| Url.HostPortSpec | RivaBrowser/riva/url.py:211-218 | the host is the text before the first colon and the port is in 0..65535 |
| Url.PortNumber | RivaBrowser/riva/url.py:214-216 | a port is accepted exactly when `int()` reads it and it lies in 0..65535 |
| Url.DropSlashes | RivaBrowser/riva/url.py:179-180 | the loop removes exactly the leading slashes |
| Url.RequestData | RivaBrowser/riva/url.py:475-489 | `_request_data` fails only without a path, returns the path, and drops one leading `text/html,` |
| Url.URL.Init | RivaBrowser/riva/url.py:97-103 | the attributes set before parsing |
| Url.URL.New | RivaBrowser/riva/url.py:86-104 | the constructor builds the object `Parse` describes, or raises its error |
| Url.URL.ParseUrl | RivaBrowser/riva/url.py:106-134 | `_parse_url` reaches the state of the dispatch function |
| Url.URL.HandleViewSource | RivaBrowser/riva/url.py:136-150 | `_handle_view_source` reaches its specified state |
| Url.URL.HandleData | RivaBrowser/riva/url.py:152-165 | `_handle_data` reaches its specified state |
| Url.URL.HandleFile | RivaBrowser/riva/url.py:167-182 | `_handle_file`, loop included, reaches its specified state |
| Url.URL.HandleGeneric | RivaBrowser/riva/url.py:226-250 | `_handle_generic` reaches its specified state |
| Url.URL.HandleHttp | RivaBrowser/riva/url.py:184-224 | `_handle_http` reaches the state of `HttpSpec` |
| Url.URL.Locate | RivaBrowser/riva/url.py:205-220 | the host and path assignments reach the state of `LocateSpec` |
| Url.URL.SplitHostPort | RivaBrowser/riva/url.py:211-218 | the port branch reaches the state of `HostPortSpec` |
| Url.ShortRejected | RivaBrowser/riva/url.py:119-120 | fewer than three characters is always a parse error |
| Url.ViewSourceWraps | RivaBrowser/riva/url.py:145-150 | `view-source:X` parses exactly when `X` does, holds that parse as its inner URL, and otherwise reports the inner error |
| Url.DataPathAfterComma | RivaBrowser/riva/url.py:161-163 | a `data:text/html,` URL always parses, with everything after the first comma as its path |
| Url.DataRoundTrip | RivaBrowser/riva/url.py:485-487 | parsing a data URL and requesting it gives the body back unless the body itself starts with `text/html,` |
| Url.WindowsPathIsFile | RivaBrowser/riva/url.py:127-128 | a Windows-looking string is a file URL whose path is the string, or the rest without leading slashes after `file://` |
| Url.FtpRejected | RivaBrowser/riva/url.py:236-239 | `ftp://` is rejected as an unsupported scheme |
| Url.HostPortRoundTrip | RivaBrowser/riva/url.py:211-218 | `host:port` reads back as the host and the port |
| Url.LocateRoundTrip | RivaBrowser/riva/url.py:205-220 | host, optional port and path read back, with the scheme's default port when none is written |
| Url.HttpDispatch | RivaBrowser/riva/url.py:236-242 | an http or https URL without backslashes goes straight to `_handle_http` |
| Url.AuthSplit | RivaBrowser/riva/url.py:197-200 | the userinfo is exactly the text before the one `@` |
| Url.HttpRoundTrip | RivaBrowser/riva/url.py:184-220 | an http(s) URL written from scheme, userinfo, host, port and path parses back to exactly those parts |
| Url.HttpSpecRoundTrip | RivaBrowser/riva/url.py:196-220 | `_handle_http` alone reads back userinfo, host, port and path |
| Url.ParsedButRefusedByPool | RivaBrowser/riva/cache.py:175-180 | an empty host or port 0 parses but the pool rejects the key, and these are the only such cases |
| Common.ParseIntNatToString | RivaBrowser/riva/url.py:214 | `int(str(n)) == n`, so a written port reads back |
| Http1.Utf8 | RivaBrowser/riva/url.py:371 | the encoding is at least as long as the text |
| Http1.Base64Shape | RivaBrowser/riva/url.py:361 | four letters per started group of three bytes, letters and padding only |
| Http1.Base64RoundTrip | RivaBrowser/riva/url.py:361 | decoding the Base64 encoding gives the bytes back |
| Http1.RenderFields | RivaBrowser/riva/url.py:364-367 | one field line per field, in order |
| Http1.BuildRequest | RivaBrowser/riva/url.py:359-368 | the request built with `+=` is the request-line, Host, `Connection: keep-alive`, User-Agent, the optional Authorization field and the empty line |
| Http1.RequestLineReadsBack | RivaBrowser/riva/url.py:363 | a server splitting the request-line at spaces reads back method, path and version |
| Http1.StatusLineRoundTrip | RivaBrowser/riva/url.py:378-379 | a status line written from version, code and reason reads back as those parts |
| Http1.ParseFieldLine | RivaBrowser/riva/url.py:399-401 | a field line without colon is skipped; otherwise the name is lowercase without colon and the value has no outer whitespace |
| Http1.AssignGet | RivaBrowser/riva/url.py:402 | after `headers[name] = value` the name maps to the value and every other name is unchanged |
| Http1.AssignNames | RivaBrowser/riva/url.py:402 | an existing name keeps its place; a new one is appended |
| Http1.AssignUnique | RivaBrowser/riva/url.py:402 | assignment keeps the names unique |
| Http1.FoldUnique | RivaBrowser/riva/url.py:394-410 | the headers dict built by the loop never holds a name twice |
| Http1.StepEffect | RivaBrowser/riva/url.py:398-410 | what one pass of the loop does to the dict, the close flag and the length |
| Http1.LastValueWins | RivaBrowser/riva/url.py:399-402 | the last line for a name wins, and the name is absent when no line has it |
| Http1.CloseFlag | RivaBrowser/riva/url.py:406-407 | the close flag is set exactly when some line says `Connection: close` |
| Http1.LengthIsLastValid | RivaBrowser/riva/url.py:404-410 | `content_length` is the value of the last `Content-Length` that `int()` accepts |
| Http1.ReadLine | RivaBrowser/riva/url.py:375 | `readline` returns a prefix ending at the first line feed, or the rest of the input |
| Http1.ReadFields | RivaBrowser/riva/url.py:394-410 | the `while True` loop computes the field-loop function, and stops at the end of the input where the source waits |
| Http1.FieldsOfLines | RivaBrowser/riva/url.py:394-397 | field lines followed by the empty line are read as a fold over those lines, the rest left for the body |
| Http1.FieldLineParses | RivaBrowser/riva/url.py:399-401 | a written field line reads back as its lowercased name and its value |
| Http1.FieldsRoundTrip | RivaBrowser/riva/url.py:394-410 | written fields read back in order with names lowercased when no two names clash |
| Http1.FieldBlockReadBack | RivaBrowser/riva/url.py:394-410 | a field block reads back and leaves exactly the text after the empty line |
| Http1.RenderedFlags | RivaBrowser/riva/url.py:404-407 | read back, written fields set the close flag exactly when one asks for it, and set no length without `Content-Length` |
| Http1.ReadBody | RivaBrowser/riva/url.py:412-420 | no length reads to the end, a length below -1 raises, any other length reads that many bytes or fewer |
| Http1.ReadBodyExact | RivaBrowser/riva/url.py:415 | a length equal to the body's reads the body and leaves what follows |
| Http1.Exchange | RivaBrowser/riva/url.py:374-440 | the response half of `_request_http`, step by step, computes the exchange function |
| Http1.ServerErrorRaises | RivaBrowser/riva/url.py:380-385 | a 5xx status raises before any field line is read |
| Http1.NoReasonRejected | RivaBrowser/riva/url.py:377-387 | a status line without a reason phrase is rejected as invalid |
| Http1.ReadToEnd | RivaBrowser/riva/url.py:416-418 | below 500 and without `Content-Length`, the status, the fields and the whole rest are delivered, and the socket is closed |
| Http1.ReadByLength | RivaBrowser/riva/url.py:414-435 | with a `Content-Length` equal to the body's length exactly the body is read and the socket is kept unless a field asks to close |
| Http1.RequestHeadReadBack | RivaBrowser/riva/url.py:363-368 | a server reads the request-line first, then the field block |
| Http1.RequestFieldsReadBack | RivaBrowser/riva/url.py:364-368 | the request's field block reads back as the fields written, names lowercased |
| Http1.RequestFieldsWritable | RivaBrowser/riva/url.py:364-367 | the request's fields can be written and read back, and no two names clash |
| Http1.AuthorizationWritable | RivaBrowser/riva/url.py:361 | the Basic Authorization field line reads back whole |
| Http1.RequestFieldsKeepAlive | RivaBrowser/riva/url.py:365 | no field of the request asks to close the connection |
| Http2.Validate | RivaBrowser/riva/http2.py:89-92 | construction succeeds exactly with a non-empty host and a port in 0..65535; the host is checked first |
| Http2.AlpnCheck | RivaBrowser/riva/http2.py:124-125 | the connection is accepted exactly when ALPN selected `h2` |
| Http2.EnsureConnects | RivaBrowser/riva/http2.py:150-158 | after `_ensure_connection` succeeds there is a socket and a codec, and the stream is untouched |
| Http2.CustomHeaders | RivaBrowser/riva/http2.py:189-191 | the loop appends no more fields than the caller gave |
| Http2.CustomHeadersAppend | RivaBrowser/riva/http2.py:189-191 | the loop works field by field, in input order |
| Http2.CustomHeadersMember | RivaBrowser/riva/http2.py:189-191 | a field is sent exactly when a caller field that is not a pseudo-header gives it |
| Http2.CustomHeadersClean | RivaBrowser/riva/http2.py:189-191 | no appended field is a pseudo-header and every name is lowercase |
| Http2.RequestHeadersShape | RivaBrowser/riva/http2.py:181-191 | the list starts with exactly `:method` (upper-cased), `:path`, `:authority`, `:scheme` = `https`, and no pseudo-header follows |
| Http2.FirstDecisive | RivaBrowser/riva/http2.py:224-236 | the first decisive event is found, with none before it |
| Http2.FirstEventWins | RivaBrowser/riva/http2.py:224-236 | the first decisive event settles the result: data with its stream, an ended stream without data, a reset raises |
| Http2.NoDecisiveEvent | RivaBrowser/riva/http2.py:236 | with no decisive event the current stream is returned without data |
| Http2.CloseFailure | RivaBrowser/riva/http2.py:248-255 | with the guards, close raises only when socket and codec exist and the socket fails |
| Http2.Closed | RivaBrowser/riva/http2.py:256-259 | after `close` there is no socket, no codec and no current stream, whatever was raised |
| Http2.SecondCloseRaises | RivaBrowser/riva/http2.py:251-253 | as written, closing a closed or never connected object raises |
| Http2.SecondCloseQuiet | RivaBrowser/riva/http2.py:248-259 | with the guards, a second close is quiet |
| Http2.HTTP2Connection.Init | RivaBrowser/riva/http2.py:94-98 | a new object has no socket, codec or stream |
| Http2.HTTP2Connection.Create | RivaBrowser/riva/http2.py:89-98 | construction raises exactly when validation fails, with its error |
| Http2.HTTP2Connection.Connect | RivaBrowser/riva/http2.py:110-138 | `connect` reaches the state of the connect function |
| Http2.HTTP2Connection.Ensure | RivaBrowser/riva/http2.py:150-158 | `_ensure_connection` reaches its specified state |
| Http2.HTTP2Connection.SendRequest | RivaBrowser/riva/http2.py:174-202 | empty method or path raises; otherwise the built header list goes out on the allocated stream, which becomes current |
| Http2.HTTP2Connection.ReceiveResponse | RivaBrowser/riva/http2.py:213-240 | no stream raises, an empty read gives `(None, None)`, otherwise the event dispatch |
| Http2.HTTP2Connection.Close | RivaBrowser/riva/http2.py:248-259 | the state is reset whatever is raised, and the error is the one `close` raises as written: from a failing send, or from the unguarded codec read and socket close when either is missing |
| Security.Names | RivaBrowser/riva/security.py:12-22 | the directive names in order |
| Security.SourcesOf | RivaBrowser/riva/security.py:12-22 | lookup of a directive finds its sources exactly when the name is present |
| Security.RenderAll | RivaBrowser/riva/security.py:32-35 | one rendering per directive, in order |
| Security.ParseRendered | RivaBrowser/riva/security.py:33 | parsing one rendered directive gives it back |
| Security.ParsePadded | RivaBrowser/riva/security.py:32-35 | parsing the padded renderings of distinct directives gives them back |
| Security.CspHeaderRoundTrip | RivaBrowser/riva/security.py:30-35 | the header parses back, under the serialized-policy algorithm, to the policy's directives in order, when names and sources are tokens |
| Security.SourcesOfAt | RivaBrowser/riva/security.py:12-22 | a directive name met for the first time is found at its own entry |
| Security.DefaultPolicyShape | RivaBrowser/riva/security.py:12-22 | nine directives with distinct names, `object-src` and `frame-src` both `'none'` |
| Security.DefaultPolicySerializable | RivaBrowser/riva/security.py:12-22 | every name and source of the default policy is a token, names lowercase |
| Security.DefaultHeaderRoundTrip | RivaBrowser/riva/security.py:30-35 | the default header parses back to its nine directives |
| Security.ValidateUrlIsPrefixTest | RivaBrowser/riva/security.py:55-62 | a URL is accepted exactly when it starts with `http://`, `https://` or `file://` |
| Security.DangerousUnreachable | RivaBrowser/riva/security.py:58-60 | no URL with an allowed prefix has a dangerous one, so the second test never rejects |
| LegacyUrl.Parse | WebBrowser/riva/url.py:7-57 | a parsed object is well formed, and its scheme is `view-source` exactly when the text starts with `view-source:` |
| LegacyUrl.Address | WebBrowser/riva/url.py:21-57 | the scheme is http, https or file; file has a path, http(s) a host, port and path; failure only with `://` and no Windows look |
| LegacyUrl.HttpRest | WebBrowser/riva/url.py:34-49 | a host without `/` or `:`, some port, a path starting with `/` |
| LegacyUrl.RemoveAll | WebBrowser/riva/url.py:55 | `replace` never lengthens the text |
| LegacyUrl.RemoveAllAbsent | WebBrowser/riva/url.py:55 | a text without the pattern comes back unchanged |
| LegacyUrl.URL.Init | WebBrowser/riva/url.py:7 | a fresh object has nothing assigned |
| LegacyUrl.URL.New | WebBrowser/riva/url.py:7-57 | the constructor builds the object `Parse` describes, or raises its error |
| LegacyUrl.URL.ParseUrl | WebBrowser/riva/url.py:8-57 | the constructor body reaches the state of `Parse` |
| LegacyUrl.URL.ParseAddress | WebBrowser/riva/url.py:21-57 | lines 21-57 reach the state of `Address` |
| LegacyUrl.URL.ParseHttp | WebBrowser/riva/url.py:34-49 | the http branch reaches the state of `HttpRest` |
| LegacyUrl.URL.ParseFile | WebBrowser/riva/url.py:50-57 | the file branch, slash loop included, reaches the state of the file function |
| LegacyUrl.FileFallback | WebBrowser/riva/url.py:22-29 | a Windows-looking input, or one without `://`, is a file URL whose path is the whole input |
| LegacyUrl.OtherSchemeRejected | WebBrowser/riva/url.py:31-32 | a scheme other than http, https or file fails the assertion |
| LegacyUrl.ViewSourceWraps | WebBrowser/riva/url.py:9-13 | `view-source:X` parses exactly when `X` does, wraps its parse, and otherwise raises its error |
| LegacyUrl.DataRoundTrip | WebBrowser/riva/url.py:185-188 | a data URL parses and `_request_data` gives the body back |
| LegacyUrl.HttpDefaults | WebBrowser/riva/url.py:34-45 | an http(s) URL reads back host and path with the scheme's default port |
| LegacyUrl.HttpBareHost | WebBrowser/riva/url.py:41-45 | a URL with nothing after the host gets the path `/` |
| LegacyUrl.NoPortRangeCheck | WebBrowser/riva/url.py:47-49 | any integer after the colon is the port, negative or above 65535 included |
| LegacyUrl.FileAbsolute | WebBrowser/riva/url.py:50-53 | `file://` with an absolute path keeps it |
| LegacyUrl.FileRelative | WebBrowser/riva/url.py:54-57 | `file://` with a relative path free of `file://` keeps it |
| LegacyUrl.RemovalCanLeaveScheme | WebBrowser/riva/url.py:54-57 | removing `file://` can create a new one: `filfile://` loses its middle |
| LegacyUrl.Step | WebBrowser/riva/url.py:130-138 | a line raises exactly when it has no colon or a non-integer length; otherwise it is the later client's loop body |
| LegacyUrl.ReadFields | WebBrowser/riva/url.py:126-138 | the loop computes the field-loop function |
| LegacyUrl.Exchange | WebBrowser/riva/url.py:117-162 | the response half computes the exchange as written: source mode reads to the end and keeps the server's close choice, the other mode reads by length or to the end and then closes |
| LegacyUrl.FieldsOfLines | WebBrowser/riva/url.py:126-138 | accepted lines are folded as in the later client |
| LegacyUrl.BlockReadBack | WebBrowser/riva/url.py:126-138 | a written field block reads back with the close flag exactly when asked and the rest left for the body |
| LegacyUrl.EndOfInputRaises | WebBrowser/riva/url.py:126-130 | a response that ends before the empty line raises where the later client waits forever |
| LegacyUrl.LengthNotIntegerRaises | WebBrowser/riva/url.py:135-136 | a non-integer `Content-Length` raises, in both versions of the exchange |
| LegacyUrl.FieldsErrorRaises | WebBrowser/riva/url.py:126-138 | an error of the field loop is the error of the exchange |
| LegacyUrl.SourceModeStoresSpentSocket | WebBrowser/riva/url.py:140-147 | as written, source mode reads to the end and still hands the socket to the cache, where the other mode closes it |
| LegacyUrl.ModesAgree | WebBrowser/riva/url.py:140-162 | with the body read alike, both modes fail together, store the same fields, close alike, and source mode returns status line and fields before the same body |
| LegacyUrl.NoLengthClosesAsWritten | WebBrowser/riva/url.py:140-161 | without `Content-Length` the other mode closes the socket, while source mode closes it only when the server sent `Connection: close` |
| LegacyUrl.NoLengthCloses | WebBrowser/riva/url.py:150-155 | with source mode corrected to read the body as the other mode does, without `Content-Length` the socket is closed in both modes |
| LegacyUrl.RequestPlan | WebBrowser/riva/url.py:59-81 | `request()` fetches only http(s) targets, in source mode exactly behind `view-source:`, and refuses only a view-source object |
| LegacyUrl.InnerPlan | WebBrowser/riva/url.py:72-81 | the inner object is fetched in source mode, and refused exactly when it is itself view-source |
| LegacyUrl.UnsupportedOnlyNested | WebBrowser/riva/url.py:59-81 | a parsed URL is refused exactly when it starts with `view-source:view-source:` |
| LegacyBrowser.BuildRequest | WebBrowser/browser.py:72-76 | the request is the HTTP/1.0 request-line, Host, `Connection: close`, `User-Agent: myFirstBrowser`, and the empty line |
| LegacyBrowser.RequestReadBack | WebBrowser/browser.py:72-76 | a server reads method, path and HTTP/1.0, then the three fields lowercased, one asking to close |
| LegacyBrowser.ReadLine | WebBrowser/browser.py:79-81 | a text-mode `readline` ends only at CRLF |
| LegacyBrowser.ReadLineOf | WebBrowser/browser.py:79-81 | a CRLF line followed by anything is read whole |
| LegacyBrowser.ReadFields | WebBrowser/browser.py:84-91 | the loop computes the field-loop function |
| LegacyBrowser.Exchange | WebBrowser/browser.py:79-95 | the response half computes the exchange function, and the socket is closed exactly when nothing raised |
| LegacyBrowser.BodyIsRest | WebBrowser/browser.py:93-95 | the body is everything after the empty line, whatever `Content-Length` says |
| LegacyBrowser.EndOfInputRaises | WebBrowser/browser.py:84-91 | a response ending before the empty line raises at the empty read |
| LegacyBrowser.RequestPlan | WebBrowser/browser.py:49-55 | http(s) is fetched, file is read, anything else is refused with the scheme in the message |
| LegacyBrowser.ParsedNeverUnsupported | WebBrowser/browser.py:9-55 | the constructor leaves only schemes `request` serves, so its `ValueError` never fires |
| LegacyBrowser.Shown | WebBrowser/browser.py:116-125 | the output is no longer than the input and holds no angle bracket |
| LegacyBrowser.Show | WebBrowser/browser.py:116-125 | the loop prints exactly the tag-stripping function's output |
| LegacyBrowser.PlainUnchanged | WebBrowser/browser.py:116-125 | text is printed unchanged exactly when it holds no angle bracket |
| LegacyBrowser.ShownIdempotent | WebBrowser/browser.py:116-125 | stripping twice changes nothing |
| LegacyBrowser.ShownAppend | WebBrowser/browser.py:116-125 | the stripper works piece by piece over a concatenation |
| LegacyBrowser.TagRemoved | WebBrowser/browser.py:119-125 | a tag prints nothing and leaves the tag closed |
| LegacyCache.Lookup | WebBrowser/riva/cache.py:8-11 | the result is None exactly when the key is absent, and otherwise a stored pair |
| LegacyCache.Put | WebBrowser/riva/cache.py:13-15 | an existing key keeps its place; a new key goes at the end |
| LegacyCache.ConnectionCache.constructor | WebBrowser/riva/cache.py:4-6 | a new cache is empty |
| LegacyCache.ConnectionCache.Get | WebBrowser/riva/cache.py:8-11 | `get` returns the stored socket, None exactly for an unknown key, and changes nothing |
| LegacyCache.ConnectionCache.Store | WebBrowser/riva/cache.py:13-15 | the key maps to the new socket, one entry per key kept |
| LegacyCache.ConnectionCache.CloseAll | WebBrowser/riva/cache.py:17-23 | every socket is closed in insertion order and the cache is empty, so a second call closes nothing |
| LegacyCache.PutKeepsUnique | WebBrowser/riva/cache.py:13-15 | storing keeps one entry per key |
| LegacyCache.LookupPut | WebBrowser/riva/cache.py:8-15 | after a store the key reads back the new socket and other keys are untouched |
| LegacyCache.PutExistingKeepsSize | WebBrowser/riva/cache.py:13-15 | storing under a known key adds no entry |
| LegacyCache.ReplacedSocketLeaks | WebBrowser/riva/cache.py:13-23 | a replaced socket held under no other key is never closed by `close_all` |
| LegacyShow.Rendered | WebBrowser/riva/utils.py:9-33 | the output is never longer than the input |
| LegacyShow.Show | WebBrowser/riva/utils.py:1-33 | the loop prints the display function's output, at most one character longer than the body |
| LegacyShow.AgreesWithBrowser | WebBrowser/riva/utils.py:23-33 | without `&` the output is that of the single-file browser's `show`, with no angle bracket |
| LegacyShow.EscapeRoundTrip | WebBrowser/riva/utils.py:12-22 | text without `&`, escaped, is printed back as it was |
| LegacyShow.EntityInsideTag | WebBrowser/riva/utils.py:12-22 | an entity inside a tag is printed all the same |

## Left out

- Socket and TLS setup are not part of this model: `_get_connection`, `_get_socket`, the socket code of `browser.py`, and `HTTP2Connection.connect` apart from the ALPN check. The wire is the response text and the handshake value.
- The cleaner thread, the lock, `time.sleep` and the thread join of `close_all`. Calls are single-threaded with an explicit `now`. The several `time.time()` reads of one call are one `now`.
- The real liveness probe (`RivaBrowser/riva/cache.py:134-158`) sends a NUL byte. It is the predicate `alive` on an abstract handle, so the `CacheError` branch for foreign types does not exist. A handle that was closed counts as dead.
- Pool.ConnectionCache.GetMetrics: the hit ratio and the lifetime average are exact rationals, not floats, so float rounding is not modelled.
- The `h2` codec is abstract: stream allocation, `data_to_send`, flow control and event construction are inputs.
- UTF-8 decoding with `errors='replace'` and `int()` on non-ASCII digits are not modelled. The response is text, and `Http1.Utf8` models only the length of the request's encoding.
- `casefold`, `lower` and `upper` are ASCII only.
- Http1.ReadBody: a `Content-Length` counts characters of the response text, not bytes of its UTF-8 encoding, because the response is modelled as decoded text.
- Http1.ReadFields: when the input ends before the empty line the source loop spins forever on empty reads. The model returns a distinct `Stalled` result (`Hangs` for the exchange) instead of not terminating.
- `_request_file` in all three URL classes, `utils.load` and `browser.load` only compose file or socket I/O with the modelled parts and are not part of this model.
- `request` and `_request_view_source` of RivaBrowser (`RivaBrowser/riva/url.py:264-308`) only route to the request methods modelled here or to file I/O. Their routing is not part of this model.
- Re-wrapped exception messages (`Failed to parse URL: ...`, `Connection failed: ...`) keep only the kind of the error, not its text.
- `sanitize_html`, the other security flags, `RivaBrowser/riva/utils.py`, the command line and the examples are regex, printing or demo code and are not part of this model.
- The browser's socket is left open when the exchange raises. Only the `closed` flag of `LegacyBrowser.Exchange` records it.
- The legacy cache stores and returns sockets without any liveness check, so the model has none.
- Where the tests disagree with the code, the model follows the code:
  - `URLParseError` is not a `ValueError`;
  - the four HTTP/2 pseudo-header fields are always sent;
  - `get` on an expired entry counts a miss and a failure, not an eviction.

## Findings

The methods of `Pool.ConnectionCache`, `Http2.HTTP2Connection` and `LegacyUrl` follow the code as written. Each corrected behaviour below is a function of its own, and the intended property is proved about it.

| source | as written | input that shows it | evidently intended | confidence | as-written member | corrected member |
|---|---|---|---|---|---|---|
| RivaBrowser/riva/cache.py:235-246 | `get` leaves the entry pooled; after a keep-alive response `_request_http` calls `store` with the same socket, which pops the key, closes that socket, then probes it and refuses it | a pooled live connection for `("example.com", 80, "http")`, fetched with `get` and put back with `store` | putting back the socket a key already holds re-stamps the entry and keeps the connection open | not executed; high | Pool.ReuseDropsConnection | Pool.ReuseKeepsConnection |
| RivaBrowser/riva/http2.py:248-259 | `self.conn.close()` runs outside `if self.conn:`, so closing an object that is already closed, or never connected, raises `HTTP2Error` | `close()` called twice on one object | a second `close` is quiet | not executed; medium | Http2.SecondCloseRaises | Http2.SecondCloseQuiet |
| WebBrowser/riva/url.py:140-147 | source mode reads the stream to its end and still stores the socket in the cache unless the server sent `Connection: close` | `view-source:http://h/` answered by `HTTP/1.0 200 OK\r\n\r\nhello` | source mode reads the body as the other mode does and closes a socket it read to the end | not executed; medium | LegacyUrl.SourceModeStoresSpentSocket | LegacyUrl.ModesAgree |
