/**
 * Shared vocabulary: Option/Result, and the handful of Python string
 * built-ins the browser's parsers lean on (`startswith`, `in`, `split(sep, 1)`,
 * `strip`, `lower`/`upper`/`casefold`, `int`, `str.join`), each stated over
 * `seq<char>` with the behaviour of CPython spelled out.
 */
module Common {

  datatype Option<+T> = None | Some(value: T)

  datatype Result<+T, +E> = Ok(value: T) | Err(error: E)

  /** An octet, kept as an integer so that the bit arithmetic stays linear. */
  type Byte = b: int | 0 <= b < 256

  // ---------------------------------------------------------------------
  // Prefixes and substrings
  // ---------------------------------------------------------------------

  /** Python's `s.startswith(prefix)`. */
  predicate StartsWith(s: string, prefix: string)
  {
    |prefix| <= |s| && s[..|prefix|] == prefix
  }

  /** `sub` occurs in `s` at position `j`. */
  predicate MatchAt(s: string, sub: string, j: nat)
  {
    j + |sub| <= |s| && s[j..j + |sub|] == sub
  }

  lemma MatchAtShift(s: string, sub: string, j: nat)
    requires s != []
    ensures MatchAt(s, sub, j + 1) <==> MatchAt(s[1..], sub, j)
  {
    if j + 1 + |sub| <= |s| {
      assert s[j + 1..j + 1 + |sub|] == s[1..][j..j + |sub|];
    }
  }

  /** Position of the first occurrence of `sub` in `s`, if any (Python's `s.find(sub)`). */
  function Find(s: string, sub: string): (r: Option<nat>)
    requires sub != []
    ensures r.Some? ==> MatchAt(s, sub, r.value)
    ensures r.Some? ==> forall j :: 0 <= j < r.value ==> !MatchAt(s, sub, j)
    ensures r.None? ==> forall j: nat :: !MatchAt(s, sub, j)
    decreases |s|
  {
    if |s| < |sub| then None
    else if s[..|sub|] == sub then Some(0)
    else
      match Find(s[1..], sub)
      case None =>
        FindShiftNone(s, sub);
        None
      case Some(k) =>
        FindShiftSome(s, sub, k);
        Some(k + 1)
  }

  lemma FindShiftNone(s: string, sub: string)
    requires sub != [] && |sub| <= |s| && s[..|sub|] != sub
    requires forall j: nat :: !MatchAt(s[1..], sub, j)
    ensures forall j: nat :: !MatchAt(s, sub, j)
  {
    forall j: nat
      ensures !MatchAt(s, sub, j)
    {
      if j > 0 {
        MatchAtShift(s, sub, j - 1);
      }
    }
  }

  lemma FindShiftSome(s: string, sub: string, k: nat)
    requires sub != [] && |sub| <= |s| && s[..|sub|] != sub
    requires MatchAt(s[1..], sub, k)
    requires forall j :: 0 <= j < k ==> !MatchAt(s[1..], sub, j)
    ensures MatchAt(s, sub, k + 1)
    ensures forall j :: 0 <= j < k + 1 ==> !MatchAt(s, sub, j)
  {
    MatchAtShift(s, sub, k);
    forall j | 0 <= j < k + 1
      ensures !MatchAt(s, sub, j)
    {
      if j > 0 {
        MatchAtShift(s, sub, j - 1);
      }
    }
  }

  /** Python's `sub in s` for strings. */
  predicate Contains(s: string, sub: string)
    requires sub != []
  {
    Find(s, sub).Some?
  }

  /** Python's `c in s` for a single character; agrees with `Contains(s, [c])`. */
  predicate HasChar(s: string, c: char)
  {
    c in s
  }

  lemma HasCharIsContains(s: string, c: char)
    ensures HasChar(s, c) <==> Contains(s, [c])
  {
    forall i | 0 <= i < |s|
      ensures MatchAt(s, [c], i) <==> s[i] == c
    {
      assert s[i..i + 1] == [s[i]];
    }
    if Contains(s, [c]) {
      var k := Find(s, [c]).value;
      assert s[k] == c;
    }
    if c in s {
      var i :| 0 <= i < |s| && s[i] == c;
      assert MatchAt(s, [c], i);
    }
  }

  /**
   * Python's `s.split(sep, 1)` when it yields two parts: the text before the
   * first `sep` and the text after it; `None` when `sep` does not occur.
   */
  function SplitOnce(s: string, sep: string): (r: Option<(string, string)>)
    requires sep != []
    ensures r.None? <==> !Contains(s, sep)
    ensures r.Some? ==> s == r.value.0 + sep + r.value.1
    ensures r.Some? ==> !Contains(r.value.0 + sep[..|sep| - 1], sep)
  {
    match Find(s, sep)
    case None => None
    case Some(i) =>
      var before, after := s[..i], s[i + |sep|..];
      assert s == before + s[i..i + |sep|] + after;
      NoEarlierMatch(s, sep, i);
      Some((before, after))
  }

  /** `split(sep, 1)` cuts at `a + sep + b` when `sep` does not start anywhere inside `a`. */
  lemma SplitOnceAt(s: string, sep: string, a: string, b: string)
    requires sep != [] && s == a + sep + b
    requires forall j :: 0 <= j < |a| ==> !MatchAt(s, sep, j)
    ensures SplitOnce(s, sep) == Some((a, b))
  {
    assert s[|a|..|a| + |sep|] == sep;
    assert MatchAt(s, sep, |a|);
    var i := Find(s, sep).value;
    assert i == |a|;
    assert s[..i] == a && s[i + |sep|..] == b;
  }

  lemma NoEarlierMatch(s: string, sep: string, i: nat)
    requires sep != [] && MatchAt(s, sep, i)
    requires forall j :: 0 <= j < i ==> !MatchAt(s, sep, j)
    ensures !Contains(s[..i] + sep[..|sep| - 1], sep)
  {
    var t := s[..i] + sep[..|sep| - 1];
    assert t == s[..i + |sep| - 1];
    forall j: nat
      ensures !MatchAt(t, sep, j)
    {
      if j + |sep| <= |t| {
        assert t[j..j + |sep|] == s[j..j + |sep|];
        assert !MatchAt(s, sep, j);
      }
    }
  }

  // ---------------------------------------------------------------------
  // Characters
  // ---------------------------------------------------------------------

  predicate IsDigit(c: char)
  {
    48 <= c as int <= 57
  }

  /**
   * Python's `str.isspace()` for one character: the whitespace that
   * `str.strip()` and `int()` remove.
   */
  predicate IsSpace(c: char)
  {
    c == ' ' || ('\t' <= c <= '\r') || ('\U{1C}' <= c <= '\U{1F}')
    || c == '\U{85}' || c == '\U{A0}' || c == '\U{1680}'
    || ('\U{2000}' <= c <= '\U{200A}') || c == '\U{2028}' || c == '\U{2029}'
    || c == '\U{202F}' || c == '\U{205F}' || c == '\U{3000}'
  }

  function LowerChar(c: char): (r: char)
    ensures !('A' <= r <= 'Z')
    ensures !('A' <= c <= 'Z') ==> r == c
  {
    if 'A' <= c <= 'Z' then (c as int + 32) as char else c
  }

  function UpperChar(c: char): (r: char)
    ensures !('a' <= r <= 'z')
    ensures !('a' <= c <= 'z') ==> r == c
  {
    if 'a' <= c <= 'z' then (c as int - 32) as char else c
  }

  /** ASCII `str.lower()` (also used for `casefold()`). */
  function Lower(s: string): (r: string)
    ensures |r| == |s|
    ensures forall i :: 0 <= i < |s| ==> r[i] == LowerChar(s[i])
  {
    seq(|s|, i requires 0 <= i < |s| => LowerChar(s[i]))
  }

  /** ASCII `str.upper()`. */
  function Upper(s: string): (r: string)
    ensures |r| == |s|
    ensures forall i :: 0 <= i < |s| ==> r[i] == UpperChar(s[i])
  {
    seq(|s|, i requires 0 <= i < |s| => UpperChar(s[i]))
  }

  // ---------------------------------------------------------------------
  // strip()
  // ---------------------------------------------------------------------

  function LStrip(s: string): (r: string)
    ensures |r| <= |s| && r == s[|s| - |r|..]
    ensures r == [] || !IsSpace(r[0])
    ensures forall i :: 0 <= i < |s| - |r| ==> IsSpace(s[i])
  {
    if s != [] && IsSpace(s[0]) then LStrip(s[1..]) else s
  }

  function RStrip(s: string): (r: string)
    ensures |r| <= |s| && r == s[..|r|]
    ensures r == [] || !IsSpace(r[|r| - 1])
    ensures forall i :: |r| <= i < |s| ==> IsSpace(s[i])
  {
    if s != [] && IsSpace(s[|s| - 1]) then RStrip(s[..|s| - 1]) else s
  }

  /** Python's `s.strip()`: drop leading and trailing whitespace. */
  function Strip(s: string): (r: string)
    ensures r == [] || (!IsSpace(r[0]) && !IsSpace(r[|r| - 1]))
  {
    RStrip(LStrip(s))
  }

  lemma StripNoSpace(s: string)
    requires s == [] || (!IsSpace(s[0]) && !IsSpace(s[|s| - 1]))
    ensures Strip(s) == s
  {
  }

  /** Whitespace padding on either side is exactly what `strip()` removes from a value without outer whitespace. */
  lemma StripPadded(pre: string, v: string, post: string)
    requires forall i :: 0 <= i < |pre| ==> IsSpace(pre[i])
    requires forall i :: 0 <= i < |post| ==> IsSpace(post[i])
    requires v == [] || (!IsSpace(v[0]) && !IsSpace(v[|v| - 1]))
    ensures Strip(pre + v + post) == v
  {
    if v == [] {
      var s := pre + v + post;
      assert forall i :: 0 <= i < |s| ==> IsSpace(s[i]);
      assert LStrip(s) == [];
    } else {
      assert pre + v + post == pre + (v + post);
      LStripPadded(pre, v + post);
      RStripPadded(v, post);
    }
  }

  lemma {:induction false} LStripPadded(pre: string, t: string)
    requires forall i :: 0 <= i < |pre| ==> IsSpace(pre[i])
    requires t != [] && !IsSpace(t[0])
    ensures LStrip(pre + t) == t
  {
    if pre == [] {
      assert pre + t == t;
    } else {
      assert (pre + t)[1..] == pre[1..] + t;
      LStripPadded(pre[1..], t);
    }
  }

  lemma {:induction false} RStripPadded(v: string, post: string)
    requires forall i :: 0 <= i < |post| ==> IsSpace(post[i])
    requires v == [] || !IsSpace(v[|v| - 1])
    ensures RStrip(v + post) == v
  {
    if post == [] {
      assert v + post == v;
    } else {
      var s := v + post;
      assert s[..|s| - 1] == v + post[..|post| - 1];
      RStripPadded(v, post[..|post| - 1]);
    }
  }

  // ---------------------------------------------------------------------
  // int() and str() on decimal integers
  // ---------------------------------------------------------------------

  function DigitVal(c: char): nat
    requires IsDigit(c)
  {
    c as int - 48
  }

  function DigitChar(d: nat): (c: char)
    requires d < 10
    ensures IsDigit(c) && DigitVal(c) == d
  {
    (48 + d) as char
  }

  /**
   * The digit groups `int()` accepts after the sign: ASCII digits, with single
   * underscores allowed between two digits.
   */
  predicate IsDigitGroup(s: string)
  {
    && s != []
    && IsDigit(s[0]) && IsDigit(s[|s| - 1])
    && (forall i :: 0 <= i < |s| ==> IsDigit(s[i]) || s[i] == '_')
    && (forall i :: 0 <= i < |s| - 1 ==> !(s[i] == '_' && s[i + 1] == '_'))
  }

  /** The number a digit group denotes (underscores are separators only). */
  function DigitsValue(s: string): nat
    requires forall i :: 0 <= i < |s| ==> IsDigit(s[i]) || s[i] == '_'
  {
    if s == [] then 0
    else if s[|s| - 1] == '_' then DigitsValue(s[..|s| - 1])
    else DigitsValue(s[..|s| - 1]) * 10 + DigitVal(s[|s| - 1])
  }

  /**
   * Python's `int(s)` on a string, base 10: whitespace around the number is
   * ignored, one optional `+` or `-` sign, then a digit group; anything else
   * raises ValueError (here: None). Non-ASCII decimal digits are not modelled.
   */
  function ParseInt(s: string): (r: Option<int>)
    ensures r.Some? ==> Strip(s) != []
  {
    var t := Strip(s);
    if t == [] then None
    else
      var body := if t[0] == '-' || t[0] == '+' then t[1..] else t;
      if !IsDigitGroup(body) then None
      else
        var v: int := DigitsValue(body);
        Some(if t[0] == '-' then -v else v)
  }

  /** Python's `str(n)` for a non-negative integer. */
  function NatToString(n: nat): (r: string)
    ensures r != []
    ensures forall i :: 0 <= i < |r| ==> IsDigit(r[i])
  {
    if n < 10 then [DigitChar(n)] else NatToString(n / 10) + [DigitChar(n % 10)]
  }

  lemma {:induction false} NatToStringValue(n: nat)
    ensures DigitsValue(NatToString(n)) == n
  {
    var r := NatToString(n);
    if n < 10 {
      assert r[..|r| - 1] == [];
    } else {
      assert r[..|r| - 1] == NatToString(n / 10);
      NatToStringValue(n / 10);
    }
  }

  /** `int(str(n)) == n`: the decimal rendering of a port reads back as that port. */
  lemma ParseIntNatToString(n: nat)
    ensures ParseInt(NatToString(n)) == Some(n)
  {
    var r := NatToString(n);
    assert !IsSpace(r[0]) && !IsSpace(r[|r| - 1]);
    StripNoSpace(r);
    assert IsDigitGroup(r);
    NatToStringValue(n);
  }

  // ---------------------------------------------------------------------
  // str.join and str.split
  // ---------------------------------------------------------------------

  /** Python's `sep.join(parts)`. */
  function Join(parts: seq<string>, sep: string): string
  {
    if parts == [] then ""
    else if |parts| == 1 then parts[0]
    else parts[0] + sep + Join(parts[1..], sep)
  }

  /** Python's `s.split(c)` on a single character: every piece, empty ones included. */
  function SplitChar(s: string, c: char): (r: seq<string>)
    ensures |r| >= 1
    ensures forall i :: 0 <= i < |r| ==> c !in r[i]
    decreases |s|
  {
    if c !in s then [s]
    else
      var i := IndexOf(s, c);
      [s[..i]] + SplitChar(s[i + 1..], c)
  }

  /** Position of the first `c` in `s`. */
  function IndexOf(s: string, c: char): (i: nat)
    requires c in s
    ensures i < |s| && s[i] == c && c !in s[..i]
  {
    if s[0] == c then 0 else 1 + IndexOf(s[1..], c)
  }

  /** Python's `s.split(c, 1)` when `c` occurs in `s`: the text before the first `c` and the text after it. */
  function SplitAtChar(s: string, c: char): (r: (string, string))
    requires c in s
    ensures s == r.0 + [c] + r.1 && c !in r.0
  {
    var i := IndexOf(s, c);
    assert s == s[..i] + [c] + s[i + 1..];
    (s[..i], s[i + 1..])
  }

  /** Splitting `a + [c] + b` at its first `c` gives `a` and `b` back when `a` holds no `c`. */
  lemma SplitAtCharOf(a: string, c: char, b: string)
    requires c !in a
    ensures c in a + [c] + b && SplitAtChar(a + [c] + b, c) == (a, b)
  {
    var s := a + [c] + b;
    assert s[|a|] == c && s[..|a|] == a;
    IndexOfAt(s, c, |a|);
    assert s[|a| + 1..] == b;
  }

  lemma IndexOfAt(s: string, c: char, i: nat)
    requires i < |s| && s[i] == c && c !in s[..i]
    ensures c in s && IndexOf(s, c) == i
  {
    var k := IndexOf(s, c);
    assert forall j :: 0 <= j < i ==> s[..i][j] == s[j];
    assert forall j :: 0 <= j < k ==> s[..k][j] == s[j];
  }

  /** Splitting a `c`-join of pieces that contain no `c` gives the pieces back. */
  lemma {:induction false} SplitJoin(parts: seq<string>, c: char)
    requires |parts| >= 1
    requires forall i :: 0 <= i < |parts| ==> c !in parts[i]
    ensures SplitChar(Join(parts, [c]), c) == parts
  {
    if |parts| > 1 {
      var s := Join(parts, [c]);
      var rest := Join(parts[1..], [c]);
      assert s == parts[0] + [c] + rest;
      assert s[|parts[0]|] == c;
      IndexOfAt(s, c, |parts[0]|);
      assert s[..|parts[0]|] == parts[0];
      assert s[|parts[0]| + 1..] == rest;
      SplitJoin(parts[1..], c);
    }
  }
}
