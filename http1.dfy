/**
 * HTTP/1.1 framing of RivaBrowser's `URL._request_http` (`riva/url.py`):
 * the GET request it writes (the request-line and field lines of section 3
 * and 5 of RFC 9112, with the Basic credentials of section 2 of RFC 7617),
 * and what it makes of the response: the status line (section 4 of
 * RFC 9112), the field-line loop with its content-length and connection
 * flags, the body length rule (section 6.3 of RFC 9112), and whether the
 * socket is closed or handed back to the pool.
 *
 * The socket is replaced by its contents: the status line, the lines
 * `readline` would return after it, and the bytes that follow them.
 */
module Http1 {
  import opened Common

  // -----------------------------------------------------------------------
  // Base64 (section 4 of RFC 4648) over UTF-8 bytes
  // -----------------------------------------------------------------------

  /** `c.encode()`: the UTF-8 bytes of one Unicode scalar value. */
  function Utf8Char(c: char): (r: seq<Byte>)
    ensures 1 <= |r| <= 4
    ensures |r| == 1 <==> c as int < 0x80
  {
    var v := c as int;
    if v < 0x80 then [v]
    else if v < 0x800 then [0xC0 + v / 64, 0x80 + v % 64]
    else if v < 0x10000 then [0xE0 + v / 4096, 0x80 + (v / 64) % 64, 0x80 + v % 64]
    else [0xF0 + (v / 262144) % 8, 0x80 + (v / 4096) % 64, 0x80 + (v / 64) % 64, 0x80 + v % 64]
  }

  /** `s.encode()`: UTF-8, one character after the other. */
  function Utf8(s: string): (r: seq<Byte>)
    ensures |r| >= |s|
  {
    if s == [] then [] else Utf8Char(s[0]) + Utf8(s[1..])
  }

  /** The 64 letters of the alphabet. */
  predicate IsLetter(c: char)
  {
    'A' <= c <= 'Z' || 'a' <= c <= 'z' || '0' <= c <= '9' || c == '+' || c == '/'
  }

  /** The letter for a 6-bit value in the alphabet of section 4 of RFC 4648. */
  function Base64Char(d: nat): (c: char)
    requires d < 64
    ensures IsLetter(c)
  {
    if d < 26 then ('A' as int + d) as char
    else if d < 52 then ('a' as int + d - 26) as char
    else if d < 62 then ('0' as int + d - 52) as char
    else if d == 62 then '+'
    else '/'
  }

  /** The 6-bit value of an alphabet letter: the inverse of `Base64Char`. */
  function Base64Value(c: char): (r: Option<nat>)
    ensures r.Some? ==> r.value < 64 && Base64Char(r.value) == c
  {
    if 'A' <= c <= 'Z' then Some(c as int - 'A' as int)
    else if 'a' <= c <= 'z' then Some(c as int - 'a' as int + 26)
    else if '0' <= c <= '9' then Some(c as int - '0' as int + 52)
    else if c == '+' then Some(62)
    else if c == '/' then Some(63)
    else None
  }

  lemma Base64ValueOfChar(d: nat)
    requires d < 64
    ensures Base64Value(Base64Char(d)) == Some(d)
  {
  }

  /** Letters and padding only. */
  predicate Base64Text(s: string)
  {
    forall i :: 0 <= i < |s| ==> IsLetter(s[i]) || s[i] == '='
  }

  /** An encoding holds no whitespace, so no line break, and no colon. */
  lemma Base64TextSafe(s: string)
    requires Base64Text(s)
    ensures forall i :: 0 <= i < |s| ==> !IsSpace(s[i]) && s[i] != ':'
  {
  }

  /** The last group for one remaining byte: two letters and `==`. */
  function Quad1(b0: Byte): (r: string)
    ensures |r| == 4 && Base64Text(r)
  {
    [Base64Char(b0 / 4), Base64Char((b0 % 4) * 16), '=', '=']
  }

  /** The last group for two remaining bytes: three letters and `=`. */
  function Quad2(b0: Byte, b1: Byte): (r: string)
    ensures |r| == 4 && Base64Text(r)
  {
    [Base64Char(b0 / 4), Base64Char((b0 % 4) * 16 + b1 / 16), Base64Char((b1 % 16) * 4), '=']
  }

  /** A full group: three bytes, 24 bits, four letters. */
  function Quad3(b0: Byte, b1: Byte, b2: Byte): (r: string)
    ensures |r| == 4 && Base64Text(r)
  {
    [Base64Char(b0 / 4), Base64Char((b0 % 4) * 16 + b1 / 16),
     Base64Char((b1 % 16) * 4 + b2 / 64), Base64Char(b2 % 64)]
  }

  /** `base64.b64encode`: three bytes to four letters, the last group padded with `=`. */
  function Base64(bs: seq<Byte>): string
    decreases |bs|
  {
    if |bs| == 0 then ""
    else if |bs| == 1 then Quad1(bs[0])
    else if |bs| == 2 then Quad2(bs[0], bs[1])
    else Quad3(bs[0], bs[1], bs[2]) + Base64(bs[3..])
  }

  /**
   * The encoding is four letters per started group of three bytes, and
   * holds letters and padding only.
   */
  lemma {:induction false} Base64Shape(bs: seq<Byte>)
    ensures |Base64(bs)| == 4 * ((|bs| + 2) / 3)
    ensures Base64Text(Base64(bs))
    ensures bs != [] ==> Base64(bs) != []
    decreases |bs|
  {
    if |bs| >= 3 {
      Base64Shape(bs[3..]);
      var g, r := Quad3(bs[0], bs[1], bs[2]), Base64(bs[3..]);
      assert Base64(bs) == g + r;
      Base64TextAppend(g, r);
      GroupCount(|bs|);
    }
  }

  lemma GroupCount(n: nat)
    requires n >= 3
    ensures 4 + 4 * ((n - 3 + 2) / 3) == 4 * ((n + 2) / 3)
  {
  }

  lemma Base64TextAppend(a: string, b: string)
    requires Base64Text(a) && Base64Text(b)
    ensures Base64Text(a + b)
  {
    assert forall i :: 0 <= i < |a + b| ==> (a + b)[i] == if i < |a| then a[i] else b[i - |a|];
  }

  /**
   * One group of four letters decoded; padding is accepted only in the
   * last group of the input.
   */
  function Unquad(q: string, last: bool): Option<seq<int>>
    requires |q| == 4
  {
    var a, b, c, d := Base64Value(q[0]), Base64Value(q[1]), Base64Value(q[2]), Base64Value(q[3]);
    if a.None? || b.None? then None
    else if last && q[2] == '=' && q[3] == '=' then Some([a.value * 4 + b.value / 16])
    else if c.None? then None
    else if last && q[3] == '=' then Some([a.value * 4 + b.value / 16, (b.value % 16) * 16 + c.value / 4])
    else if d.None? then None
    else Some([a.value * 4 + b.value / 16, (b.value % 16) * 16 + c.value / 4, (c.value % 4) * 64 + d.value])
  }

  /** Decoding of section 4 of RFC 4648, used to state what a server reads back. */
  function Unbase64(s: string): Option<seq<int>>
    decreases |s|
  {
    if s == [] then Some([])
    else if |s| < 4 then None
    else
      match Unquad(s[..4], |s| == 4)
      case None => None
      case Some(group) =>
        match Unbase64(s[4..])
        case None => None
        case Some(tail) => Some(group + tail)
  }

  lemma Quad1RoundTrip(b0: Byte)
    ensures Unquad(Quad1(b0), true) == Some([b0])
  {
    Base64ValueOfChar(b0 / 4);
    Base64ValueOfChar((b0 % 4) * 16);
  }

  lemma Quad2RoundTrip(b0: Byte, b1: Byte)
    ensures Unquad(Quad2(b0, b1), true) == Some([b0, b1])
  {
    var b, c := (b0 % 4) * 16 + b1 / 16, (b1 % 16) * 4;
    Base64ValueOfChar(b0 / 4);
    Base64ValueOfChar(b);
    Base64ValueOfChar(c);
    assert (b0 / 4) * 4 + b / 16 == b0;
    assert (b % 16) * 16 + c / 4 == b1;
  }

  lemma Quad3RoundTrip(b0: Byte, b1: Byte, b2: Byte, last: bool)
    ensures Unquad(Quad3(b0, b1, b2), last) == Some([b0, b1, b2])
  {
    var b, c := (b0 % 4) * 16 + b1 / 16, (b1 % 16) * 4 + b2 / 64;
    Quad3Arith(b0, b1, b2);
    Base64ValueOfChar(b0 / 4);
    Base64ValueOfChar(b);
    Base64ValueOfChar(c);
    Base64ValueOfChar(b2 % 64);
  }

  /** The bit arithmetic of a full group: the four 6-bit values put back give the three bytes. */
  lemma Quad3Arith(b0: Byte, b1: Byte, b2: Byte)
    ensures (b0 % 4) * 16 + b1 / 16 < 64 && (b1 % 16) * 4 + b2 / 64 < 64
    ensures (b0 / 4) * 4 + ((b0 % 4) * 16 + b1 / 16) / 16 == b0
    ensures (((b0 % 4) * 16 + b1 / 16) % 16) * 16 + ((b1 % 16) * 4 + b2 / 64) / 4 == b1
    ensures (((b1 % 16) * 4 + b2 / 64) % 4) * 64 + b2 % 64 == b2
  {
  }

  /** A last group decoded alone. */
  lemma Unbase64Last(q: string)
    requires |q| == 4
    ensures Unbase64(q) == Unquad(q, true)
  {
    assert q[..4] == q;
    assert q[4..] == [];
    match Unquad(q, true)
    case None =>
    case Some(g) => assert g + [] == g;
  }

  /** Base64 round trip: decoding the encoding gives the bytes back. */
  lemma {:induction false} Base64RoundTrip(bs: seq<Byte>)
    ensures Unbase64(Base64(bs)) == Some(bs)
    decreases |bs|
  {
    if |bs| == 1 {
      Quad1RoundTrip(bs[0]);
      Unbase64Last(Quad1(bs[0]));
      assert bs == [bs[0]];
    } else if |bs| == 2 {
      Quad2RoundTrip(bs[0], bs[1]);
      Unbase64Last(Quad2(bs[0], bs[1]));
      assert bs == [bs[0], bs[1]];
    } else if |bs| >= 3 {
      Base64RoundTrip(bs[3..]);
      Base64GroupStep(bs);
    }
  }

  /** A full group in front of an encoding that decodes back decodes back too. */
  lemma Base64GroupStep(bs: seq<Byte>)
    requires |bs| >= 3 && Unbase64(Base64(bs[3..])) == Some(bs[3..])
    ensures Unbase64(Base64(bs)) == Some(bs)
  {
    var g, rest := Quad3(bs[0], bs[1], bs[2]), Base64(bs[3..]);
    var s := g + rest;
    assert Base64(bs) == s;
    assert s[..4] == g && s[4..] == rest;
    Quad3RoundTrip(bs[0], bs[1], bs[2], |s| == 4);
    SplitThree(bs);
  }

  lemma SplitThree(bs: seq<Byte>)
    requires |bs| >= 3
    ensures bs == [bs[0], bs[1], bs[2]] + bs[3..]
  {
  }

  /** The credentials of `Authorization: Basic`: base64 of the UTF-8 userinfo. */
  function BasicCredentials(auth: string): string
  {
    Base64(Utf8(auth))
  }

  // -----------------------------------------------------------------------
  // Lines and field lines
  // -----------------------------------------------------------------------

  /** `''.join(lines)`. */
  function Concat(lines: seq<string>): string
  {
    if lines == [] then "" else lines[0] + Concat(lines[1..])
  }

  /** One field line as the client writes it: `f"{name}: {value}\r\n"`. */
  function FieldLine(name: string, value: string): string
  {
    name + ": " + value + "\r\n"
  }

  /** The field lines for a list of fields, in order. */
  function RenderFields(fields: seq<(string, string)>): (r: seq<string>)
    ensures |r| == |fields|
    ensures forall i :: 0 <= i < |r| ==> r[i] == FieldLine(fields[i].0, fields[i].1)
  {
    if fields == [] then []
    else RenderFields(fields[..|fields| - 1]) + [FieldLine(fields[|fields| - 1].0, fields[|fields| - 1].1)]
  }

  // -----------------------------------------------------------------------
  // The request
  // -----------------------------------------------------------------------

  /** The fields the client sends, `Authorization` only when the URL carried userinfo. */
  function RequestFields(host: string, userAgent: string, auth: Option<string>): seq<(string, string)>
  {
    [("Host", host), ("Connection", "keep-alive"), ("User-Agent", userAgent)]
    + (if auth.Some? then [("Authorization", "Basic " + BasicCredentials(auth.value))] else [])
  }

  /** The request-line of section 3 of RFC 9112 for a GET of `path`. */
  function RequestLine(path: string): string
  {
    "GET " + path + " HTTP/1.1"
  }

  /** The whole request: request-line, field lines, empty line. */
  function RequestText(path: string, host: string, userAgent: string, auth: Option<string>): string
  {
    RequestLine(path) + "\r\n" + Concat(RenderFields(RequestFields(host, userAgent, auth))) + "\r\n"
  }

  lemma {:induction false} ConcatAppend(a: seq<string>, b: seq<string>)
    ensures Concat(a + b) == Concat(a) + Concat(b)
  {
    if a != [] {
      assert (a + b)[0] == a[0];
      assert (a + b)[1..] == a[1..] + b;
      ConcatAppend(a[1..], b);
    } else {
      assert a + b == b;
    }
  }

  /** Appending one more line to what has been written so far. */
  lemma AppendLine(head: string, sent: seq<string>, line: string)
    ensures head + Concat(sent) + line == head + Concat(sent + [line])
  {
    ConcatAppend(sent, [line]);
    assert [line][1..] == [];
  }

  /** The request string `_request_http` builds with `+=` before sending it. */
  method BuildRequest(path: string, host: string, userAgent: string, auth: Option<string>) returns (request: string)
    ensures request == RequestText(path, host, userAgent, auth)
  {
    request := RequestLine(path) + "\r\n";
    ghost var head := request;
    ghost var sent: seq<string> := [];
    assert request == head + Concat(sent);
    AppendLine(head, sent, FieldLine("Host", host));
    request, sent := request + FieldLine("Host", host), sent + [FieldLine("Host", host)];
    AppendLine(head, sent, FieldLine("Connection", "keep-alive"));
    request, sent := request + FieldLine("Connection", "keep-alive"), sent + [FieldLine("Connection", "keep-alive")];
    AppendLine(head, sent, FieldLine("User-Agent", userAgent));
    request, sent := request + FieldLine("User-Agent", userAgent), sent + [FieldLine("User-Agent", userAgent)];
    ghost var fs := RequestFields(host, userAgent, auth);
    if auth.Some? {
      var authHeader := FieldLine("Authorization", "Basic " + BasicCredentials(auth.value));
      AppendLine(head, sent, authHeader);
      request, sent := request + authHeader, sent + [authHeader];
    }
    assert sent == RenderFields(fs);
    request := request + "\r\n";
  }

  /**
   * A server splitting the request-line at its spaces (section 3 of
   * RFC 9112) reads back the method, the path and the version, as long as
   * the path has no space.
   */
  lemma RequestLineReadsBack(path: string)
    requires ' ' !in path
    ensures SplitChar(RequestLine(path), ' ') == ["GET", path, "HTTP/1.1"]
  {
    var parts := ["GET", path, "HTTP/1.1"];
    assert Join(parts, [' ']) == RequestLine(path) by {
      assert parts[1..][1..] == parts[2..] == ["HTTP/1.1"];
      assert Join(parts[1..], [' ']) == path + " " + "HTTP/1.1";
    }
    SplitJoin(parts, ' ');
  }

  // -----------------------------------------------------------------------
  // The status line
  // -----------------------------------------------------------------------

  /** `version, status, explanation = statusline.split(" ", 2)` and `int(status)`. */
  datatype StatusLine = StatusLine(version: string, statusText: string, code: int, explanation: string)

  function ParseStatusLine(line: string): Option<StatusLine>
  {
    if ' ' !in line then None
    else
      var (version, more) := SplitAtChar(line, ' ');
      if ' ' !in more then None
      else
        var (status, explanation) := SplitAtChar(more, ' ');
        match ParseInt(status)
        case None => None
        case Some(code) => Some(StatusLine(version, status, code, explanation))
  }

  /** A status line written as `<version> <code> <reason>` reads back as those three parts. */
  lemma StatusLineRoundTrip(version: string, code: nat, reason: string)
    requires ' ' !in version
    ensures ParseStatusLine(version + " " + NatToString(code) + " " + reason)
            == Some(StatusLine(version, NatToString(code), code, reason))
  {
    var digits := NatToString(code);
    assert ' ' !in digits by {
      assert forall i :: 0 <= i < |digits| ==> IsDigit(digits[i]);
    }
    assert version + " " + digits + " " + reason == version + [' '] + (digits + [' '] + reason);
    SplitAtCharOf(version, ' ', digits + [' '] + reason);
    SplitAtCharOf(digits, ' ', reason);
    ParseIntNatToString(code);
  }

  // -----------------------------------------------------------------------
  // The field-line loop
  // -----------------------------------------------------------------------

  /** `header, value = line.split(":", 1)`, casefolded and stripped; `None` when there is no colon. */
  function ParseFieldLine(line: string): (r: Option<(string, string)>)
    ensures r.Some? ==> ':' !in r.value.0 && Lower(r.value.0) == r.value.0
    ensures r.Some? ==> r.value.1 == [] || (!IsSpace(r.value.1[0]) && !IsSpace(r.value.1[|r.value.1| - 1]))
  {
    if ':' !in line then None
    else
      var (name, value) := SplitAtChar(line, ':');
      LowerIdempotent(name);
      Some((Lower(name), Strip(value)))
  }

  lemma LowerIdempotent(s: string)
    ensures Lower(Lower(s)) == Lower(s)
    ensures ':' !in s ==> ':' !in Lower(s)
  {
  }

  /** The names of a field list, in order. */
  function Names(fields: seq<(string, string)>): (r: seq<string>)
    ensures |r| == |fields|
    ensures forall i :: 0 <= i < |r| ==> r[i] == fields[i].0
    decreases |fields|
  {
    if fields == [] then [] else [fields[0].0] + Names(fields[1..])
  }

  /** No name occurs twice: the keys of a Python dict. */
  predicate UniqueNames(fields: seq<(string, string)>)
  {
    fields == [] || (fields[0].0 !in Names(fields[1..]) && UniqueNames(fields[1..]))
  }

  /** `headers[name]`, or `None` when the name is absent. */
  function Get(fields: seq<(string, string)>, name: string): (r: Option<string>)
    ensures r.None? <==> name !in Names(fields)
    decreases |fields|
  {
    if fields == [] then None
    else if fields[0].0 == name then Some(fields[0].1)
    else Get(fields[1..], name)
  }

  /**
   * `headers[name] = value` on an insertion-ordered dict: an existing name
   * keeps its place and takes the new value, a new name goes to the end.
   */
  function Assign(fields: seq<(string, string)>, name: string, value: string): seq<(string, string)>
    decreases |fields|
  {
    if fields == [] then [(name, value)]
    else if fields[0].0 == name then [(name, value)] + fields[1..]
    else [fields[0]] + Assign(fields[1..], name, value)
  }

  /** After the assignment the name maps to the new value and every other name is as before. */
  lemma {:induction false} AssignGet(fields: seq<(string, string)>, name: string, value: string, n: string)
    ensures Get(Assign(fields, name, value), n) == if n == name then Some(value) else Get(fields, n)
    decreases |fields|
  {
    if fields != [] {
      var r := Assign(fields, name, value);
      if fields[0].0 == name {
        assert r[1..] == fields[1..];
      } else {
        AssignGet(fields[1..], name, value, n);
        assert r[1..] == Assign(fields[1..], name, value);
      }
    }
  }

  /** An existing name keeps its place; a new one is appended. */
  lemma {:induction false} AssignNames(fields: seq<(string, string)>, name: string, value: string)
    ensures Names(Assign(fields, name, value))
            == if name in Names(fields) then Names(fields) else Names(fields) + [name]
    decreases |fields|
  {
    if fields != [] {
      var r := Assign(fields, name, value);
      assert Names(fields) == [fields[0].0] + Names(fields[1..]);
      assert Names(r) == [r[0].0] + Names(r[1..]);
      if fields[0].0 == name {
        assert r[1..] == fields[1..];
      } else {
        var t := Assign(fields[1..], name, value);
        AssignNames(fields[1..], name, value);
        assert r[1..] == t;
        assert name in Names(fields) <==> name in Names(fields[1..]);
        if name in Names(fields[1..]) {
          assert Names(r) == [fields[0].0] + Names(fields[1..]);
        } else {
          assert Names(r) == [fields[0].0] + (Names(fields[1..]) + [name]);
        }
      }
    }
  }

  /** The variables of the loop: the `headers` dict, `content_length` and `connection_close`. */
  datatype FieldState = FieldState(fields: seq<(string, string)>, contentLength: Option<int>, close: bool)

  /** One pass of the loop body on a line that is not the empty line. */
  function Step(st: FieldState, line: string): FieldState
  {
    match ParseFieldLine(line)
    case None => st
    case Some(p) => Absorb(st, p.0, p.1)
  }

  /** The loop body once a line has been split into a name and a value. */
  function Absorb(st: FieldState, name: string, value: string): (r: FieldState)
    ensures r.fields == Assign(st.fields, name, value)
  {
    var st1 := st.(fields := Assign(st.fields, name, value));
    if name == "content-length" then
      (match ParseInt(value)
       case Some(n) => st1.(contentLength := Some(n))
       case None => st1)
    else if name == "connection" && Lower(value) == "close" then st1.(close := true)
    else st1
  }

  /** Assignment keeps the names of a dict unique. */
  lemma {:induction false} AssignUnique(fields: seq<(string, string)>, name: string, value: string)
    requires UniqueNames(fields)
    ensures UniqueNames(Assign(fields, name, value))
    decreases |fields|
  {
    if fields != [] && fields[0].0 != name {
      AssignUnique(fields[1..], name, value);
      AssignNames(fields[1..], name, value);
      var rest := Assign(fields[1..], name, value);
      assert Assign(fields, name, value) == [fields[0]] + rest;
      assert ([fields[0]] + rest)[1..] == rest;
    } else if fields != [] {
      assert ([(name, value)] + fields[1..])[1..] == fields[1..];
    }
  }

  /** The loop state after the given lines, one `Step` each, front to back. */
  function FoldFrom(st: FieldState, lines: seq<string>): FieldState
    decreases |lines|
  {
    if lines == [] then st else FoldFrom(Step(st, lines[0]), lines[1..])
  }

  /** The state the loop starts in. */
  const Start := FieldState([], None, false)

  /** The `headers` dict the loop builds never holds a name twice. */
  lemma {:induction false} FoldUnique(st: FieldState, lines: seq<string>)
    requires UniqueNames(st.fields)
    ensures UniqueNames(FoldFrom(st, lines).fields)
    decreases |lines|
  {
    if lines != [] {
      StepEffect(st, lines[0]);
      match ParseFieldLine(lines[0]) {
        case None =>
        case Some(p) => AssignUnique(st.fields, p.0, p.1);
      }
      FoldUnique(Step(st, lines[0]), lines[1..]);
    }
  }

  lemma {:induction false} FoldSnoc(st: FieldState, lines: seq<string>, line: string)
    ensures FoldFrom(st, lines + [line]) == Step(FoldFrom(st, lines), line)
    decreases |lines|
  {
    if lines != [] {
      assert (lines + [line])[0] == lines[0];
      assert (lines + [line])[1..] == lines[1..] + [line];
      FoldSnoc(Step(st, lines[0]), lines[1..], line);
    } else {
      assert [line][1..] == [];
    }
  }

  /** What one pass of the loop does to each of its three variables. */
  lemma StepEffect(st: FieldState, line: string)
    ensures Step(st, line).fields
            == if ParseFieldLine(line).None? then st.fields
               else Assign(st.fields, ParseFieldLine(line).value.0, ParseFieldLine(line).value.1)
    ensures Step(st, line).close == (st.close || IsClose(ParseFieldLine(line)))
    ensures Step(st, line).contentLength == if LengthOf(line).Some? then LengthOf(line) else st.contentLength
  {
  }

  /** What the loop makes of each line, in order: a name and a value, or nothing. */
  function Parsed(lines: seq<string>): (r: seq<Option<(string, string)>>)
    ensures |r| == |lines|
    decreases |lines|
  {
    if lines == [] then [] else Parsed(lines[..|lines| - 1]) + [ParseFieldLine(lines[|lines| - 1])]
  }

  lemma {:induction false} ParsedAt(lines: seq<string>, i: int)
    requires 0 <= i < |lines|
    ensures Parsed(lines)[i] == ParseFieldLine(lines[i])
    decreases |lines|
  {
    if i < |lines| - 1 {
      ParsedAt(lines[..|lines| - 1], i);
    }
  }

  /** Entry `i` sets `name` to `value` and no later entry sets `name`. */
  predicate LastSet(ps: seq<Option<(string, string)>>, i: int, name: string, value: string)
  {
    0 <= i < |ps| && ps[i] == Some((name, value))
    && forall j :: i < j < |ps| ==> ps[j].None? || ps[j].value.0 != name
  }

  /** Some entry sets `name` to `value` and no later entry sets `name`. */
  predicate SetLast(ps: seq<Option<(string, string)>>, name: string, value: string)
  {
    exists i :: 0 <= i < |ps| && LastSet(ps, i, name, value)
  }

  /**
   * The last line for a name wins: `headers[name]` ends up holding the
   * value of the last field line with that name, and is absent when no line
   * has it.
   */
  lemma {:induction false} LastValueWins(lines: seq<string>, name: string, value: string)
    ensures Get(FoldFrom(Start, lines).fields, name) == Some(value)
            <==> SetLast(Parsed(lines), name, value)
    decreases |lines|
  {
    if lines == [] {
      assert Get([], name) == None;
    } else {
      var init, last := lines[..|lines| - 1], lines[|lines| - 1];
      var st := FoldFrom(Start, init);
      assert lines == init + [last];
      FoldSnoc(Start, init, last);
      StepEffect(st, last);
      LastValueWins(init, name, value);
      var ps, p := Parsed(init), ParseFieldLine(last);
      assert Parsed(lines) == ps + [p];
      if p.Some? {
        AssignGet(st.fields, p.value.0, p.value.1, name);
      }
      if p.Some? && p.value.0 == name {
        LastSetHit(ps, p, name, value);
      } else {
        LastSetMiss(ps, p, name, value);
      }
    }
  }

  lemma LastSetHit(ps: seq<Option<(string, string)>>, p: Option<(string, string)>, name: string, value: string)
    requires p.Some? && p.value.0 == name
    ensures SetLast(ps + [p], name, value) <==> p.value.1 == value
  {
    var qs := ps + [p];
    if p.value.1 == value {
      assert LastSet(qs, |ps|, name, value);
    }
    forall i | LastSet(qs, i, name, value) ensures p.value.1 == value {
      assert qs[|ps|] == p;
    }
  }

  lemma LastSetMiss(ps: seq<Option<(string, string)>>, p: Option<(string, string)>, name: string, value: string)
    requires p.None? || p.value.0 != name
    ensures SetLast(ps + [p], name, value) <==> SetLast(ps, name, value)
  {
    var qs := ps + [p];
    forall i | LastSet(qs, i, name, value) ensures LastSet(ps, i, name, value) {
      assert forall j :: 0 <= j < |ps| ==> qs[j] == ps[j];
    }
    forall i | LastSet(ps, i, name, value) ensures LastSet(qs, i, name, value) {
      assert forall j :: 0 <= j < |ps| ==> qs[j] == ps[j];
    }
  }

  /** A `Connection: close` field, the value in any case. */
  predicate IsClose(p: Option<(string, string)>)
  {
    p.Some? && p.value.0 == "connection" && Lower(p.value.1) == "close"
  }

  /** Some entry is a `Connection: close` field. */
  predicate AnyClose(ps: seq<Option<(string, string)>>)
  {
    exists i :: 0 <= i < |ps| && IsClose(ps[i])
  }

  /** `connection_close` is set exactly when some field line says `Connection: close`. */
  lemma {:induction false} CloseFlag(lines: seq<string>)
    ensures FoldFrom(Start, lines).close <==> AnyClose(Parsed(lines))
    decreases |lines|
  {
    if lines != [] {
      var init, last := lines[..|lines| - 1], lines[|lines| - 1];
      assert lines == init + [last];
      FoldSnoc(Start, init, last);
      StepEffect(FoldFrom(Start, init), last);
      CloseFlag(init);
      var ps, p := Parsed(init), ParseFieldLine(last);
      assert Parsed(lines) == ps + [p];
      AnyCloseSnoc(ps, p);
    }
  }

  lemma AnyCloseSnoc(ps: seq<Option<(string, string)>>, p: Option<(string, string)>)
    ensures AnyClose(ps + [p]) <==> AnyClose(ps) || IsClose(p)
  {
    var qs := ps + [p];
    if IsClose(p) {
      assert IsClose(qs[|ps|]);
    }
    forall i | 0 <= i < |ps| && IsClose(ps[i]) ensures IsClose(qs[i]) {
      assert qs[i] == ps[i];
    }
    forall i | 0 <= i < |qs| && IsClose(qs[i]) && i < |ps| ensures IsClose(ps[i]) {
      assert qs[i] == ps[i];
    }
  }

  /** The length a `Content-Length` line gives, when `int()` accepts its value. */
  function LengthOf(line: string): Option<int>
  {
    match ParseFieldLine(line)
    case None => None
    case Some(p) => if p.0 == "content-length" then ParseInt(p.1) else None
  }

  /** The lengths the lines give, one entry per line. */
  function Lengths(lines: seq<string>): (r: seq<Option<int>>)
    ensures |r| == |lines|
    decreases |lines|
  {
    if lines == [] then [] else Lengths(lines[..|lines| - 1]) + [LengthOf(lines[|lines| - 1])]
  }

  /** Entry `i` holds `n` and every later entry is empty. */
  predicate LastSome(xs: seq<Option<int>>, i: int, n: int)
  {
    0 <= i < |xs| && xs[i] == Some(n) && forall j :: i < j < |xs| ==> xs[j].None?
  }

  /** Some entry holds `n` and every later entry is empty. */
  predicate EndsWith(xs: seq<Option<int>>, n: int)
  {
    exists i :: 0 <= i < |xs| && LastSome(xs, i, n)
  }

  /**
   * `content_length` is the value of the last `Content-Length` line that
   * `int()` accepts; lines it rejects are skipped and leave the earlier value.
   */
  lemma {:induction false} LengthIsLastValid(lines: seq<string>, n: int)
    ensures FoldFrom(Start, lines).contentLength == Some(n) <==> EndsWith(Lengths(lines), n)
    decreases |lines|
  {
    if lines != [] {
      var init, last := lines[..|lines| - 1], lines[|lines| - 1];
      assert lines == init + [last];
      FoldSnoc(Start, init, last);
      StepEffect(FoldFrom(Start, init), last);
      LengthIsLastValid(init, n);
      var xs := Lengths(init);
      assert Lengths(lines) == xs + [LengthOf(last)];
      if LengthOf(last).Some? {
        LastSomeSnoc(xs, LengthOf(last), n);
      } else {
        LastSomeDrop(xs, LengthOf(last), n);
      }
    }
  }

  lemma LastSomeSnoc(xs: seq<Option<int>>, x: Option<int>, n: int)
    requires x.Some?
    ensures EndsWith(xs + [x], n) <==> x == Some(n)
  {
    var ys := xs + [x];
    if x == Some(n) {
      assert LastSome(ys, |xs|, n);
    }
    forall i | LastSome(ys, i, n) ensures x == Some(n) {
      assert ys[|xs|] == x;
    }
  }

  lemma LastSomeDrop(xs: seq<Option<int>>, x: Option<int>, n: int)
    requires x.None?
    ensures EndsWith(xs + [x], n) <==> EndsWith(xs, n)
  {
    var ys := xs + [x];
    forall i | LastSome(ys, i, n) ensures LastSome(xs, i, n) {
      assert forall j :: 0 <= j < |xs| ==> ys[j] == xs[j];
    }
    forall i | LastSome(xs, i, n) ensures LastSome(ys, i, n) {
      assert forall j :: 0 <= j < |xs| ==> ys[j] == xs[j];
    }
  }

  // -----------------------------------------------------------------------
  // Reading lines off the socket
  // -----------------------------------------------------------------------

  /**
   * `response.readline()` on the buffered socket file: everything up to and
   * including the first line feed, or all that is left when there is none;
   * the empty string at the end of the input.
   */
  function ReadLine(s: string): (r: (string, string))
    ensures s == r.0 + r.1
    ensures r.0 == [] <==> s == []
    ensures '\n' in r.0 ==> r.0[|r.0| - 1] == '\n' && '\n' !in r.0[..|r.0| - 1]
    ensures '\n' !in r.0 ==> r.1 == []
  {
    if '\n' in s then
      var (line, rest) := SplitAtChar(s, '\n');
      assert (line + ['\n'])[..|line|] == line;
      (line + ['\n'], rest)
    else (s, [])
  }

  /** A line as `readline` returns it: non-empty, one line feed, at its end. */
  predicate IsLine(line: string)
  {
    line != [] && line[|line| - 1] == '\n' && '\n' !in line[..|line| - 1]
  }

  /** `readline` on a line followed by anything returns that line. */
  lemma ReadLineOf(line: string, rest: string)
    requires IsLine(line)
    ensures ReadLine(line + rest) == (line, rest)
  {
    var body := line[..|line| - 1];
    assert line == body + ['\n'];
    assert line + rest == body + ['\n'] + rest;
    SplitAtCharOf(body, '\n', rest);
  }

  /**
   * Where the field-line loop stops: at the line `"\r\n"`, with the rest of
   * the input left for the body, or never, when the input ends first.
   */
  datatype FieldsRead = Complete(state: FieldState, rest: string) | Stalled

  /** The loop from state `st` over the input `s`. */
  function FieldsFrom(st: FieldState, s: string): FieldsRead
    decreases |s|
  {
    var (line, rest) := ReadLine(s);
    if line == "\r\n" then Complete(st, rest)
    else if line == [] then Stalled
    else FieldsFrom(Step(st, line), rest)
  }

  /** The `while True` loop over the field lines of `_request_http`. */
  method ReadFields(input: string) returns (r: FieldsRead)
    ensures r == FieldsFrom(Start, input)
  {
    var headers: seq<(string, string)> := [];
    var contentLength: Option<int> := None;
    var connectionClose := false;
    var s := input;
    while true
      invariant FieldsFrom(FieldState(headers, contentLength, connectionClose), s) == FieldsFrom(Start, input)
      decreases |s|
    {
      var (line, rest) := ReadLine(s);
      if line == "\r\n" {
        return Complete(FieldState(headers, contentLength, connectionClose), rest);
      }
      if line == [] {
        // End of input: `readline` keeps returning the empty string and the
        // loop never ends.
        return Stalled;
      }
      if ':' in line {
        var parts := SplitAtChar(line, ':');
        var header := Lower(parts.0);
        var value := Strip(parts.1);
        headers := Assign(headers, header, value);
        if header == "content-length" {
          var n := ParseInt(value);
          if n.Some? {
            contentLength := n;
          }
        } else if header == "connection" && Lower(value) == "close" {
          connectionClose := true;
        }
      }
      s := rest;
    }
  }

  /** Field lines followed by the empty line are read as a fold over those lines. */
  lemma {:induction false} FieldsOfLines(st: FieldState, lines: seq<string>, rest: string)
    requires forall i :: 0 <= i < |lines| ==> IsLine(lines[i]) && lines[i] != "\r\n"
    ensures FieldsFrom(st, Concat(lines) + "\r\n" + rest) == Complete(FoldFrom(st, lines), rest)
    decreases |lines|
  {
    if lines == [] {
      assert Concat(lines) + "\r\n" + rest == "\r\n" + rest;
      ReadLineOf("\r\n", rest);
    } else {
      var tail := Concat(lines[1..]) + "\r\n" + rest;
      assert Concat(lines) + "\r\n" + rest == lines[0] + tail;
      ReadLineOf(lines[0], tail);
      FieldsOfLines(Step(st, lines[0]), lines[1..], rest);
    }
  }

  // -----------------------------------------------------------------------
  // Field lines written, then read back
  // -----------------------------------------------------------------------

  /** No leading or trailing whitespace: what `strip()` leaves. */
  predicate Stripped(v: string)
  {
    v == [] || (!IsSpace(v[0]) && !IsSpace(v[|v| - 1]))
  }

  /**
   * A field the loop reads back as written: the name has no colon and no
   * line feed, the value has no line feed and no outer whitespace.
   */
  predicate Writable(f: (string, string))
  {
    ':' !in f.0 && '\n' !in f.0 && '\n' !in f.1 && Stripped(f.1)
  }

  /** One field line, as written, is a single line that the loop reads as its name, lowercased, and its value. */
  lemma FieldLineParses(name: string, value: string)
    requires Writable((name, value))
    ensures IsLine(FieldLine(name, value)) && FieldLine(name, value) != "\r\n"
    ensures ParseFieldLine(FieldLine(name, value)) == Some((Lower(name), value))
  {
    FieldLineIsLine(name, value);
    var after := " " + value + "\r\n";
    assert FieldLine(name, value) == name + [':'] + after;
    SplitAtCharOf(name, ':', after);
    StripPadded(" ", value, "\r\n");
  }

  lemma FieldLineIsLine(name: string, value: string)
    requires '\n' !in name && '\n' !in value
    ensures IsLine(FieldLine(name, value)) && FieldLine(name, value) != "\r\n"
  {
    var line := FieldLine(name, value);
    var body := name + ": " + value + "\r";
    assert line == body + "\n";
    assert line[..|line| - 1] == body;
    assert '\n' !in body;
  }

  /** The fields with their names lowercased, as the loop stores them. */
  function LowerNames(fields: seq<(string, string)>): (r: seq<(string, string)>)
    ensures |r| == |fields|
    decreases |fields|
  {
    if fields == [] then []
    else LowerNames(fields[..|fields| - 1]) + [(Lower(fields[|fields| - 1].0), fields[|fields| - 1].1)]
  }

  lemma {:induction false} UniqueSnoc(fields: seq<(string, string)>, f: (string, string))
    requires UniqueNames(fields + [f])
    ensures UniqueNames(fields) && f.0 !in Names(fields)
    decreases |fields|
  {
    if fields != [] {
      var all := fields + [f];
      assert all[0] == fields[0];
      assert all[1..] == fields[1..] + [f];
      UniqueSnoc(fields[1..], f);
      NamesSnoc(fields[1..], f);
      assert Names(fields) == [fields[0].0] + Names(fields[1..]);
    }
  }

  lemma NamesSnoc(fields: seq<(string, string)>, f: (string, string))
    ensures Names(fields + [f]) == Names(fields) + [f.0]
  {
    var a, b := Names(fields + [f]), Names(fields) + [f.0];
    assert |a| == |b|;
    forall i | 0 <= i < |a| ensures a[i] == b[i] {
      if i < |fields| {
        assert (fields + [f])[i] == fields[i];
      }
    }
  }

  lemma {:induction false} AssignNew(fields: seq<(string, string)>, name: string, value: string)
    requires name !in Names(fields)
    ensures Assign(fields, name, value) == fields + [(name, value)]
    decreases |fields|
  {
    if fields != [] {
      assert Names(fields) == [fields[0].0] + Names(fields[1..]);
      AssignNew(fields[1..], name, value);
      assert [fields[0]] + (fields[1..] + [(name, value)]) == fields + [(name, value)];
    }
  }

  /**
   * Writing fields as field lines and reading them back with the loop gives
   * the same fields, names lowercased, in the same order, provided no two
   * names are equal once lowercased.
   */
  lemma {:induction false} FieldsRoundTrip(fields: seq<(string, string)>)
    requires forall i :: 0 <= i < |fields| ==> Writable(fields[i])
    requires UniqueNames(LowerNames(fields))
    ensures FoldFrom(Start, RenderFields(fields)).fields == LowerNames(fields)
    decreases |fields|
  {
    if fields != [] {
      var init, f := fields[..|fields| - 1], fields[|fields| - 1];
      var lines := RenderFields(init);
      var g := (Lower(f.0), f.1);
      assert LowerNames(fields) == LowerNames(init) + [g];
      UniqueSnoc(LowerNames(init), g);
      FieldsRoundTrip(init);
      assert RenderFields(fields) == lines + [FieldLine(f.0, f.1)];
      FoldSnoc(Start, lines, FieldLine(f.0, f.1));
      FieldLineParses(f.0, f.1);
      StepEffect(FoldFrom(Start, lines), FieldLine(f.0, f.1));
      AssignNew(LowerNames(init), g.0, g.1);
    }
  }

  /** A field block: the field lines, the empty line, then whatever follows. */
  function Block(fields: seq<(string, string)>, rest: string): string
  {
    Concat(RenderFields(fields)) + "\r\n" + rest
  }

  /**
   * The field block of a message, read by the loop: the same fields come
   * back and the input after the empty line is left for the body.
   */
  lemma FieldBlockReadBack(fields: seq<(string, string)>, rest: string)
    requires forall i :: 0 <= i < |fields| ==> Writable(fields[i])
    requires UniqueNames(LowerNames(fields))
    ensures FieldsFrom(Start, Block(fields, rest)).Complete?
    ensures FieldsFrom(Start, Block(fields, rest)).state.fields == LowerNames(fields)
    ensures FieldsFrom(Start, Block(fields, rest)).rest == rest
    ensures FieldsFrom(Start, Block(fields, rest)).state == FoldFrom(Start, RenderFields(fields))
  {
    var lines := RenderFields(fields);
    forall i | 0 <= i < |lines| ensures IsLine(lines[i]) && lines[i] != "\r\n" {
      FieldLineParses(fields[i].0, fields[i].1);
    }
    FieldsOfLines(Start, lines, rest);
    FieldsRoundTrip(fields);
  }

  lemma {:induction false} UniqueAppend(fields: seq<(string, string)>, f: (string, string))
    requires UniqueNames(fields) && f.0 !in Names(fields)
    ensures UniqueNames(fields + [f])
    decreases |fields|
  {
    var all := fields + [f];
    if fields == [] {
      assert all[1..] == [];
    } else {
      assert all[1..] == fields[1..] + [f];
      assert Names(fields) == [fields[0].0] + Names(fields[1..]);
      UniqueAppend(fields[1..], f);
      assert Names(all[1..]) == Names(fields[1..]) + [f.0];
    }
  }

  lemma {:induction false} LowerNamesAt(fields: seq<(string, string)>, i: int)
    requires 0 <= i < |fields|
    ensures LowerNames(fields)[i] == (Lower(fields[i].0), fields[i].1)
    decreases |fields|
  {
    if i < |fields| - 1 {
      var init := fields[..|fields| - 1];
      LowerNamesAt(init, i);
    }
  }

  // -----------------------------------------------------------------------
  // The flags the field block sets
  // -----------------------------------------------------------------------

  /** A field asking for the connection to be closed, name and value in any case. */
  predicate AsksClose(f: (string, string))
  {
    Lower(f.0) == "connection" && Lower(f.1) == "close"
  }

  predicate SomeAsksClose(fields: seq<(string, string)>)
  {
    exists i :: 0 <= i < |fields| && AsksClose(fields[i])
  }

  /** No field is named `Content-Length`, in any case. */
  predicate NoLength(fields: seq<(string, string)>)
  {
    forall i :: 0 <= i < |fields| ==> Lower(fields[i].0) != "content-length"
  }

  lemma SomeAsksCloseSnoc(fields: seq<(string, string)>, f: (string, string))
    ensures SomeAsksClose(fields + [f]) <==> SomeAsksClose(fields) || AsksClose(f)
  {
    var all := fields + [f];
    if AsksClose(f) {
      assert AsksClose(all[|fields|]);
    }
    forall i | 0 <= i < |fields| && AsksClose(fields[i]) ensures AsksClose(all[i]) {
      assert all[i] == fields[i];
    }
    forall i | 0 <= i < |all| && AsksClose(all[i]) && i < |fields| ensures AsksClose(fields[i]) {
      assert all[i] == fields[i];
    }
  }

  /**
   * Read back by the loop, written fields set `connection_close` exactly
   * when one of them asks for it, and leave `content_length` unset when
   * none of them is a `Content-Length` field.
   */
  lemma {:induction false} RenderedFlags(fields: seq<(string, string)>)
    requires forall i :: 0 <= i < |fields| ==> Writable(fields[i])
    ensures FoldFrom(Start, RenderFields(fields)).close <==> SomeAsksClose(fields)
    ensures NoLength(fields) ==> FoldFrom(Start, RenderFields(fields)).contentLength.None?
    decreases |fields|
  {
    if fields != [] {
      var init, f := fields[..|fields| - 1], fields[|fields| - 1];
      assert fields == init + [f];
      RenderedFlags(init);
      RenderedStep(init, f);
      SomeAsksCloseSnoc(init, f);
      if NoLength(fields) {
        assert Lower(f.0) != "content-length";
        forall i | 0 <= i < |init| ensures Lower(init[i].0) != "content-length" {
          assert init[i] == fields[i];
        }
      }
    }
  }

  /** One more written field, read by the loop. */
  lemma RenderedStep(init: seq<(string, string)>, f: (string, string))
    requires Writable(f)
    ensures var st, st' := FoldFrom(Start, RenderFields(init)), FoldFrom(Start, RenderFields(init + [f]));
            && st'.close == (st.close || AsksClose(f))
            && (Lower(f.0) != "content-length" ==> st'.contentLength == st.contentLength)
  {
    var lines := RenderFields(init);
    assert RenderFields(init + [f]) == lines + [FieldLine(f.0, f.1)];
    FoldSnoc(Start, lines, FieldLine(f.0, f.1));
    FieldLineParses(f.0, f.1);
    StepEffect(FoldFrom(Start, lines), FieldLine(f.0, f.1));
  }

  // -----------------------------------------------------------------------
  // The body and the whole exchange
  // -----------------------------------------------------------------------

  /**
   * `response.read(content_length)` on a buffered binary stream: no length
   * or -1 reads to the end, a length below -1 raises `ValueError`, any other
   * length reads that many bytes or fewer when the stream ends first.
   */
  function ReadBody(contentLength: Option<int>, rest: string): (r: Option<string>)
    ensures r.None? <==> contentLength.Some? && contentLength.value < -1
    ensures r.Some? ==> r.value <= rest
    ensures r.Some? && contentLength.Some? && 0 <= contentLength.value <= |rest| ==> |r.value| == contentLength.value
    ensures r.Some? && (contentLength.None? || contentLength.value == -1 || contentLength.value >= |rest|) ==> r.value == rest
  {
    match contentLength
    case None => Some(rest)
    case Some(n) =>
      if n == -1 then Some(rest)
      else if n < -1 then None
      else if n < |rest| then Some(rest[..n])
      else Some(rest)
  }

  /** A length equal to the body's reads the body and leaves what follows. */
  lemma ReadBodyExact(body: string, extra: string)
    ensures ReadBody(Some(|body|), body + extra) == Some(body)
  {
    assert (body + extra)[..|body|] == body;
    if extra == [] {
      assert body + extra == body;
    }
  }

  /** The `HTTPResponse` record: the status line's parts, the fields and the body. */
  datatype HttpResponse = HttpResponse(
    statusCode: int, statusMessage: string, headers: seq<(string, string)>, body: string, httpVersion: string)

  /** Why an exchange raised. */
  datatype ExchangeError =
    | InvalidStatusLine(line: string)
    | ServerError(status: string, reason: string)
    | BodyReadFailed

  /** The message of the `URLRequestError` raised inside `_request_http`. */
  function Message(e: ExchangeError): string
  {
    match e
    case InvalidStatusLine(line) => "Invalid HTTP status line: " + line
    case ServerError(status, reason) => "HTTP Error " + status + ": " + reason
    case BodyReadFailed => "Failed to read response body: read length must be non-negative or -1"
  }

  /** `_get_connection` wraps whatever escapes the `with` block once more. */
  function RaisedMessage(e: ExchangeError): string
  {
    "Connection failed: " + Message(e)
  }

  /**
   * How an exchange ends: a returned string together with the response and
   * whether the socket is closed (`true`) or handed to the pool (`false`);
   * an error, after which the socket is closed; or a loop that never ends,
   * when the input runs out before the empty line.
   */
  datatype Outcome =
    | Delivered(text: string, response: HttpResponse, close: bool)
    | Failed(error: ExchangeError)
    | Hangs

  /** What source mode returns: the raw status line, the stored fields rewritten, the empty line, the body. */
  function SourceView(statusline: string, headers: seq<(string, string)>, body: string): string
  {
    statusline + Block(headers, body)
  }

  /** The response half of `_request_http`, on everything the server sends. */
  function ExchangeSpec(response: string, sourceMode: bool): Outcome
  {
    var (statusline, afterStatus) := ReadLine(response);
    FromStatus(statusline, afterStatus, sourceMode)
  }

  /** The exchange once the status line has been read. */
  function FromStatus(statusline: string, afterStatus: string, sourceMode: bool): Outcome
  {
    match ParseStatusLine(statusline)
    case None => Failed(InvalidStatusLine(statusline))
    case Some(sl) =>
      if sl.code >= 500 then Failed(ServerError(sl.statusText, Strip(sl.explanation)))
      else FromFields(statusline, sl, FieldsFrom(Start, afterStatus), sourceMode)
  }

  /** The exchange once the field-line loop has ended, or never ends. */
  function FromFields(statusline: string, sl: StatusLine, fieldsRead: FieldsRead, sourceMode: bool): Outcome
  {
    match fieldsRead
    case Stalled => Hangs
    case Complete(st, rest) =>
      match ReadBody(st.contentLength, rest)
      case None => Failed(BodyReadFailed)
      case Some(body) =>
        var resp := HttpResponse(sl.code, Strip(sl.explanation), st.fields, body, sl.version);
        Delivered(if sourceMode then SourceView(statusline, st.fields, body) else body,
                  resp, st.close || st.contentLength.None?)
  }

  /** `_request_http` after the request is sent, step by step. */
  method Exchange(response: string, sourceMode: bool) returns (o: Outcome)
    ensures o == ExchangeSpec(response, sourceMode)
  {
    var (statusline, afterStatus) := ReadLine(response);
    var parsed := ParseStatusLine(statusline);
    if parsed.None? {
      return Failed(InvalidStatusLine(statusline));
    }
    var sl := parsed.value;
    if sl.code >= 500 {
      return Failed(ServerError(sl.statusText, Strip(sl.explanation)));
    }
    var fieldsRead := ReadFields(afterStatus);
    if fieldsRead.Stalled? {
      return Hangs;
    }
    var st := fieldsRead.state;
    var connectionClose := st.close;
    var body := ReadBody(st.contentLength, fieldsRead.rest);
    if body.None? {
      return Failed(BodyReadFailed);
    }
    if st.contentLength.None? {
      connectionClose := true;
    }
    var resp := HttpResponse(sl.code, Strip(sl.explanation), st.fields, body.value, sl.version);
    var text := body.value;
    if sourceMode {
      text := SourceView(statusline, st.fields, body.value);
    }
    o := Delivered(text, resp, connectionClose);
  }

  /** The exchange, put together from what each of its steps reads. */
  lemma DeliveredOfParts(response: string, sourceMode: bool, statusline: string, after: string,
                         st: FieldState, rest: string, body: string)
    requires ReadLine(response) == (statusline, after)
    requires ParseStatusLine(statusline).Some? && ParseStatusLine(statusline).value.code < 500
    requires FieldsFrom(Start, after) == Complete(st, rest)
    requires ReadBody(st.contentLength, rest) == Some(body)
    ensures var sl := ParseStatusLine(statusline).value;
            ExchangeSpec(response, sourceMode)
            == Delivered(if sourceMode then SourceView(statusline, st.fields, body) else body,
                         HttpResponse(sl.code, Strip(sl.explanation), st.fields, body, sl.version),
                         st.close || st.contentLength.None?)
  {
    assert ExchangeSpec(response, sourceMode) == FromStatus(statusline, after, sourceMode);
    var sl := ParseStatusLine(statusline).value;
    assert FromStatus(statusline, after, sourceMode) == FromFields(statusline, sl, Complete(st, rest), sourceMode);
  }

  // -----------------------------------------------------------------------
  // Responses as a server writes them
  // -----------------------------------------------------------------------

  /** `<version> <code> <reason>` and the line end, section 4 of RFC 9112. */
  function StatusText(version: string, code: nat, reason: string): string
  {
    version + " " + NatToString(code) + " " + reason + "\r\n"
  }

  /** A whole response: status line, field lines, empty line, body. */
  function ResponseText(version: string, code: nat, reason: string, fields: seq<(string, string)>, body: string): string
  {
    StatusText(version, code, reason) + Block(fields, body)
  }

  /** A status line that is read back as its version, code and reason. */
  predicate StatusWritable(version: string, reason: string)
  {
    ' ' !in version && '\n' !in version && '\n' !in reason && Stripped(reason)
  }

  lemma StatusTextReads(version: string, code: nat, reason: string, rest: string)
    requires StatusWritable(version, reason)
    ensures ReadLine(StatusText(version, code, reason) + rest) == (StatusText(version, code, reason), rest)
    ensures ParseStatusLine(StatusText(version, code, reason))
            == Some(StatusLine(version, NatToString(code), code, reason + "\r\n"))
    ensures Strip(reason + "\r\n") == reason
  {
    StatusTextIsLine(version, code, reason);
    ReadLineOf(StatusText(version, code, reason), rest);
    StatusTextParses(version, code, reason);
    StripLineEnd(reason);
  }

  lemma StripLineEnd(v: string)
    requires Stripped(v)
    ensures Strip(v + "\r\n") == v
  {
    var post := "\r\n";
    assert IsSpace(post[0]) && IsSpace(post[1]);
    StripPadded([], v, post);
    assert [] + v + post == v + post;
  }

  lemma StatusTextIsLine(version: string, code: nat, reason: string)
    requires '\n' !in version && '\n' !in reason
    ensures IsLine(StatusText(version, code, reason))
  {
    var digits := NatToString(code);
    var line := StatusText(version, code, reason);
    var body := version + " " + digits + " " + reason + "\r";
    assert '\n' !in digits by {
      assert forall i :: 0 <= i < |digits| ==> IsDigit(digits[i]);
    }
    assert line == body + "\n";
    assert line[..|line| - 1] == body;
    assert '\n' !in body;
  }

  lemma StatusTextParses(version: string, code: nat, reason: string)
    requires ' ' !in version
    ensures ParseStatusLine(StatusText(version, code, reason))
            == Some(StatusLine(version, NatToString(code), code, reason + "\r\n"))
  {
    var digits := NatToString(code);
    assert StatusText(version, code, reason) == version + " " + digits + " " + (reason + "\r\n");
    StatusLineRoundTrip(version, code, reason + "\r\n");
  }

  /** A 5xx status raises before any field line is read; what follows the status line does not matter. */
  lemma ServerErrorRaises(version: string, code: nat, reason: string, tail: string, sourceMode: bool)
    requires StatusWritable(version, reason) && code >= 500
    ensures ExchangeSpec(StatusText(version, code, reason) + tail, sourceMode)
            == Failed(ServerError(NatToString(code), reason))
  {
    StatusTextReads(version, code, reason, tail);
  }

  /**
   * A status line without the space before the reason phrase, such as
   * `HTTP/1.1 200` and the line end, is rejected as invalid.
   */
  lemma NoReasonRejected(version: string, code: nat, tail: string)
    requires ' ' !in version && '\n' !in version
    ensures ExchangeSpec(version + " " + NatToString(code) + "\r\n" + tail, sourceMode := false)
            == Failed(InvalidStatusLine(version + " " + NatToString(code) + "\r\n"))
  {
    var line := version + " " + NatToString(code) + "\r\n";
    NoReasonLine(version, code);
    ReadLineOf(line, tail);
    assert ExchangeSpec(line + tail, false) == FromStatus(line, tail, false);
  }

  lemma NoReasonLine(version: string, code: nat)
    requires ' ' !in version && '\n' !in version
    ensures IsLine(version + " " + NatToString(code) + "\r\n")
    ensures ParseStatusLine(version + " " + NatToString(code) + "\r\n").None?
  {
    var digits := NatToString(code);
    assert forall i :: 0 <= i < |digits| ==> IsDigit(digits[i]);
    var line := version + " " + digits + "\r\n";
    var body := version + " " + digits + "\r";
    assert line == body + "\n" && line[..|line| - 1] == body;
    assert '\n' !in body;
    assert line == version + [' '] + (digits + "\r\n");
    SplitAtCharOf(version, ' ', digits + "\r\n");
    assert ' ' !in digits + "\r\n";
  }

  /**
   * A response below 500 without `Content-Length` is delivered, 4xx
   * included: the status, the fields with lowercased names and the whole
   * rest of the stream as the body, and the socket is closed.
   */
  lemma ReadToEnd(version: string, code: nat, reason: string, fields: seq<(string, string)>, body: string, sourceMode: bool)
    requires StatusWritable(version, reason) && code < 500
    requires forall i :: 0 <= i < |fields| ==> Writable(fields[i])
    requires UniqueNames(LowerNames(fields)) && NoLength(fields)
    ensures ExchangeSpec(ResponseText(version, code, reason, fields, body), sourceMode)
            == Delivered(if sourceMode then SourceView(StatusText(version, code, reason), LowerNames(fields), body) else body,
                         HttpResponse(code, reason, LowerNames(fields), body, version), true)
  {
    StatusTextReads(version, code, reason, Block(fields, body));
    FieldBlockReadBack(fields, body);
    RenderedFlags(fields);
    DeliveredOfParts(ResponseText(version, code, reason, fields, body), sourceMode,
                     StatusText(version, code, reason), Block(fields, body), FoldFrom(Start, RenderFields(fields)), body, body);
  }

  /**
   * With a `Content-Length` field (the name in any case) equal to the length
   * of the body, exactly the body is read and whatever follows is left on
   * the stream; the socket is kept for reuse unless a field asks for
   * `Connection: close`.
   */
  lemma ReadByLength(version: string, code: nat, reason: string, fields: seq<(string, string)>,
                     lengthName: string, body: string, extra: string, sourceMode: bool)
    requires StatusWritable(version, reason) && code < 500
    requires forall i :: 0 <= i < |fields| ==> Writable(fields[i])
    requires UniqueNames(LowerNames(fields)) && NoLength(fields)
    requires Lower(lengthName) == "content-length" && ':' !in lengthName && '\n' !in lengthName
    ensures var all := fields + [(lengthName, NatToString(|body|))];
            ExchangeSpec(ResponseText(version, code, reason, all, body + extra), sourceMode)
            == Delivered(if sourceMode then SourceView(StatusText(version, code, reason), LowerNames(all), body) else body,
                         HttpResponse(code, reason, LowerNames(all), body, version), SomeAsksClose(fields))
  {
    var all := fields + [(lengthName, NatToString(|body|))];
    WithLength(fields, lengthName, |body|);
    StatusTextReads(version, code, reason, Block(all, body + extra));
    FieldBlockReadBack(all, body + extra);
    var st := FoldFrom(Start, RenderFields(all));
    assert FieldsFrom(Start, Block(all, body + extra)) == Complete(st, body + extra);
    assert st.contentLength == Some(|body|);
    ReadBodyExact(body, extra);
    DeliveredOfParts(ResponseText(version, code, reason, all, body + extra), sourceMode,
                     StatusText(version, code, reason), Block(all, body + extra), FoldFrom(Start, RenderFields(all)), body + extra, body);
  }

  /** The fields followed by a `Content-Length: n` field, read back by the loop. */
  lemma WithLength(fields: seq<(string, string)>, lengthName: string, n: nat)
    requires forall i :: 0 <= i < |fields| ==> Writable(fields[i])
    requires UniqueNames(LowerNames(fields)) && NoLength(fields)
    requires Lower(lengthName) == "content-length" && ':' !in lengthName && '\n' !in lengthName
    ensures var all := fields + [(lengthName, NatToString(n))];
            && (forall i :: 0 <= i < |all| ==> Writable(all[i]))
            && UniqueNames(LowerNames(all))
            && FoldFrom(Start, RenderFields(all)).contentLength == Some(n)
            && FoldFrom(Start, RenderFields(all)).close == SomeAsksClose(fields)
  {
    var digits := NatToString(n);
    var f := (lengthName, digits);
    var all := fields + [f];
    var lines := RenderFields(fields);
    LengthField(lengthName, n);
    AllWritableSnoc(fields, f);
    LengthNameUnique(fields, lengthName, digits);
    // the last line sets the length
    assert RenderFields(all) == lines + [FieldLine(f.0, f.1)];
    FoldSnoc(Start, lines, FieldLine(f.0, f.1));
    StepEffect(FoldFrom(Start, lines), FieldLine(f.0, f.1));
    RenderedFlags(fields);
    SomeAsksCloseSnoc(fields, f);
  }

  /** The names stay unique once a `content-length` name is added. */
  lemma LengthNameUnique(fields: seq<(string, string)>, lengthName: string, digits: string)
    requires UniqueNames(LowerNames(fields)) && NoLength(fields)
    requires Lower(lengthName) == "content-length"
    ensures UniqueNames(LowerNames(fields + [(lengthName, digits)]))
  {
    assert LowerNames(fields + [(lengthName, digits)]) == LowerNames(fields) + [("content-length", digits)];
    assert "content-length" !in Names(LowerNames(fields)) by {
      forall i | 0 <= i < |fields| ensures Names(LowerNames(fields))[i] != "content-length" {
        LowerNamesAt(fields, i);
      }
    }
    UniqueAppend(LowerNames(fields), ("content-length", digits));
  }

  lemma AllWritableSnoc(fields: seq<(string, string)>, f: (string, string))
    requires forall i :: 0 <= i < |fields| ==> Writable(fields[i])
    requires Writable(f)
    ensures forall i :: 0 <= i < |fields + [f]| ==> Writable((fields + [f])[i])
  {
    var all := fields + [f];
    forall i | 0 <= i < |all| ensures Writable(all[i]) {
      if i < |fields| { assert all[i] == fields[i]; } else { assert all[i] == f; }
    }
  }

  /** A `Content-Length` field written with the digits of `n`. */
  lemma LengthField(lengthName: string, n: nat)
    requires Lower(lengthName) == "content-length" && ':' !in lengthName && '\n' !in lengthName
    ensures var f := (lengthName, NatToString(n));
            && Writable(f) && !AsksClose(f)
            && ParseFieldLine(FieldLine(f.0, f.1)) == Some(("content-length", f.1))
            && LengthOf(FieldLine(f.0, f.1)) == Some(n)
  {
    var digits := NatToString(n);
    DigitsWritable(n);
    FieldLineParses(lengthName, digits);
    ParseIntNatToString(n);
  }

  lemma DigitsWritable(n: nat)
    ensures Stripped(NatToString(n)) && '\n' !in NatToString(n)
  {
    var digits := NatToString(n);
    assert forall i :: 0 <= i < |digits| ==> IsDigit(digits[i]);
  }

  /** The name the server usually writes is one such name. */
  lemma LowerLength(name: string)
    requires name == "Content-Length"
    ensures Lower(name) == "content-length" && ':' !in name && '\n' !in name
  {
    var t := "content-length";
    assert |Lower(name)| == |t|;
    forall i | 0 <= i < |name| ensures Lower(name)[i] == t[i] {
      assert Lower(name)[i] == LowerChar(name[i]);
    }
  }

  // -----------------------------------------------------------------------
  // The request, read by a server
  // -----------------------------------------------------------------------

  /**
   * A server reading the request (section 3 of RFC 9112) first reads the
   * request-line, which splits into the method, the path and the version;
   * the field block follows.
   */
  lemma RequestHeadReadBack(path: string, host: string, userAgent: string, auth: Option<string>)
    requires ' ' !in path && '\n' !in path
    ensures ReadLine(RequestText(path, host, userAgent, auth))
            == (RequestLine(path) + "\r\n", Block(RequestFields(host, userAgent, auth), ""))
    ensures SplitChar(RequestLine(path), ' ') == ["GET", path, "HTTP/1.1"]
  {
    var fs := RequestFields(host, userAgent, auth);
    RequestLineReadsBack(path);
    RequestLineFirst(path, Block(fs, ""));
    assert RequestText(path, host, userAgent, auth) == RequestLine(path) + "\r\n" + Block(fs, "");
  }

  /**
   * The field block of the request, read by a server (section 5 of RFC
   * 9112), gives back the fields the client wrote with their names
   * lowercased and nothing after the empty line; the fields ask to keep the
   * connection open and carry no `Content-Length`.
   */
  lemma RequestFieldsReadBack(host: string, userAgent: string, auth: Option<string>)
    requires Writable(("Host", host)) && Writable(("User-Agent", userAgent))
    requires auth.Some? ==> auth.value != []
    ensures var fs := RequestFields(host, userAgent, auth);
            && FieldsFrom(Start, Block(fs, "")) == Complete(FoldFrom(Start, RenderFields(fs)), "")
            && FoldFrom(Start, RenderFields(fs)).fields == LowerNames(fs)
            && !FoldFrom(Start, RenderFields(fs)).close
            && FoldFrom(Start, RenderFields(fs)).contentLength.None?
  {
    var fs := RequestFields(host, userAgent, auth);
    RequestFieldsWritable(host, userAgent, auth);
    FieldBlockReadBack(fs, "");
    RenderedFlags(fs);
    RequestFieldsKeepAlive(host, userAgent, auth);
  }

  lemma RequestLineFirst(path: string, rest: string)
    requires '\n' !in path
    ensures ReadLine(RequestLine(path) + "\r\n" + rest) == (RequestLine(path) + "\r\n", rest)
  {
    var line := RequestLine(path) + "\r\n";
    var body := RequestLine(path) + "\r";
    assert line == body + "\n" && line[..|line| - 1] == body;
    assert '\n' !in body;
    ReadLineOf(line, rest);
  }

  /** The request's fields can be written and read back, and no two names clash. */
  lemma RequestFieldsWritable(host: string, userAgent: string, auth: Option<string>)
    requires Writable(("Host", host)) && Writable(("User-Agent", userAgent))
    requires auth.Some? ==> auth.value != []
    ensures var fs := RequestFields(host, userAgent, auth);
            (forall i :: 0 <= i < |fs| ==> Writable(fs[i])) && UniqueNames(LowerNames(fs)) && NoLength(fs)
  {
    var fs := RequestFields(host, userAgent, auth);
    if auth.Some? {
      AuthorizationWritable(auth.value);
    }
    assert Writable(("Connection", "keep-alive"));
    forall i | 0 <= i < |fs| ensures Writable(fs[i]) {
    }
    RequestNamesUnique(host, userAgent, auth);
  }

  lemma RequestNamesUnique(host: string, userAgent: string, auth: Option<string>)
    ensures var fs := RequestFields(host, userAgent, auth);
            UniqueNames(LowerNames(fs)) && NoLength(fs)
  {
    var fs := RequestFields(host, userAgent, auth);
    var ls := LowerNames(fs);
    forall i | 0 <= i < |fs| ensures ls[i] == (Lower(fs[i].0), fs[i].1) {
      LowerNamesAt(fs, i);
    }
    var h, c, u := ls[0].0, ls[1].0, ls[2].0;
    assert |h| == 4 && |c| == 10 && |u| == 10 && c[0] == 'c' && u[0] == 'u';
    var base := [ls[0], ls[1], ls[2]];
    assert Names(base[2..]) == [u] && Names(base[1..]) == [c, u];
    assert UniqueNames(base[2..]);
    assert UniqueNames(base[1..]);
    assert UniqueNames(base);
    if auth.Some? {
      assert |ls[3].0| == 13;
      assert ls == base + [ls[3]];
      assert Names(base) == [h, c, u];
      UniqueAppend(base, ls[3]);
    } else {
      assert ls == base;
    }
  }

  /** `Authorization: Basic <credentials>` is a field line that reads back whole. */
  lemma AuthorizationWritable(auth: string)
    requires auth != []
    ensures Writable(("Authorization", "Basic " + BasicCredentials(auth)))
  {
    var b := BasicCredentials(auth);
    Base64Shape(Utf8(auth));
    Base64TextSafe(b);
    var v := "Basic " + b;
    assert v[0] == 'B' && v[|v| - 1] == b[|b| - 1];
    assert !IsSpace(v[|v| - 1]);
    assert '\n' !in v;
  }

  /** None of the request's fields asks to close the connection. */
  lemma RequestFieldsKeepAlive(host: string, userAgent: string, auth: Option<string>)
    ensures !SomeAsksClose(RequestFields(host, userAgent, auth))
  {
    var fs := RequestFields(host, userAgent, auth);
    assert |Lower(fs[0].0)| == 4 && |Lower(fs[1].1)| == 10 && Lower(fs[2].0)[0] == 'u';
    assert auth.Some? ==> |Lower(fs[3].0)| == 13;
    forall i | 0 <= i < |fs| ensures !AsksClose(fs[i]) {
    }
  }
}
