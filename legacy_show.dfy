/**
 * `show` of the first-generation package (`WebBrowser/riva/utils.py`): the
 * tag stripper of the single-file browser, extended with the two entities
 * `&lt;` and `&gt;` and with bodies that are printed as they are (a raw
 * response, or one of the messages of the file reader).
 *
 * What `print` writes is returned as a string; `print(body)` adds a line
 * feed.
 */
module LegacyShow {
  import opened Common
  import LegacyBrowser

  /** Line 3: bodies printed whole, tags and all. */
  predicate Verbatim(body: string)
  {
    || StartsWith(body, "HTTP/")
    || StartsWith(body, "File not found")
    || StartsWith(body, "Path is a directory")
    || StartsWith(body, "Permission denied")
    || StartsWith(body, "Error reading file")
  }

  /**
   * What the loop of lines 10-33 prints for the characters `s`, starting
   * inside a tag or not. An entity is decoded, and a bare `&` printed,
   * before the tag state is looked at: inside a tag too.
   */
  function Rendered(inTag: bool, s: string): (r: string)
    ensures |r| <= |s|
    decreases |s|
  {
    if s == [] then []
    else if s[0] == '&' then
      if StartsWith(s, "&lt;") then "<" + Rendered(inTag, s[4..])
      else if StartsWith(s, "&gt;") then ">" + Rendered(inTag, s[4..])
      else "&" + Rendered(inTag, s[1..])
    else if s[0] == '<' then Rendered(true, s[1..])
    else if s[0] == '>' then Rendered(false, s[1..])
    else if inTag then Rendered(true, s[1..])
    else [s[0]] + Rendered(false, s[1..])
  }

  /** Everything `show(body)` prints. */
  function Display(body: string): string
  {
    if Verbatim(body) then body + "\n" else Rendered(false, body)
  }

  /** Lines 1-33, with the printed characters returned. */
  method Show(body: string) returns (out: string)
    ensures out == Display(body)
    ensures |out| <= |body| + 1
  {
    if StartsWith(body, "HTTP/") || StartsWith(body, "File not found") || StartsWith(body, "Path is a directory")
       || StartsWith(body, "Permission denied") || StartsWith(body, "Error reading file") {
      return body + "\n";
    }
    out := [];
    var inTag := false;
    var i := 0;
    while i < |body|
      invariant 0 <= i <= |body|
      invariant out + Rendered(inTag, body[i..]) == Rendered(false, body)
      decreases |body| - i
    {
      var c := body[i];
      ghost var step := Advance(inTag, body[i..]);
      ghost var before := out;
      ghost var at := i;
      Unroll(out, inTag, body, i);
      if c == '&' {
        if StartsWith(body[i..], "&lt;") {
          out := out + "<";
          i := i + 4;
        } else if StartsWith(body[i..], "&gt;") {
          out := out + ">";
          i := i + 4;
        } else {
          out := out + "&";
          i := i + 1;
        }
      } else if c == '<' {
        inTag := true;
        i := i + 1;
      } else if c == '>' {
        inTag := false;
        i := i + 1;
      } else if !inTag {
        out := out + [c];
        i := i + 1;
      } else {
        i := i + 1;
      }
      assert out == before + step.0 && inTag == step.1 && i == at + step.2;
    }
    assert body[i..] == [];
  }

  /** One pass of the loop: what it prints, the tag state after it, and how far it moves. */
  function Advance(inTag: bool, s: string): (string, bool, nat)
    requires s != []
  {
    if s[0] == '&' then
      if StartsWith(s, "&lt;") then ("<", inTag, 4)
      else if StartsWith(s, "&gt;") then (">", inTag, 4)
      else ("&", inTag, 1)
    else if s[0] == '<' then ([], true, 1)
    else if s[0] == '>' then ([], false, 1)
    else if inTag then ([], true, 1)
    else ([s[0]], false, 1)
  }

  /** The loop invariant survives one pass. */
  lemma Unroll(out: string, inTag: bool, body: string, i: nat)
    requires i < |body|
    ensures var step := Advance(inTag, body[i..]);
            && i + step.2 <= |body|
            && out + Rendered(inTag, body[i..]) == (out + step.0) + Rendered(step.1, body[i + step.2..])
  {
    var s := body[i..];
    var step := Advance(inTag, s);
    RenderedStep(inTag, s);
    assert s[step.2..] == body[i + step.2..];
  }

  lemma RenderedStep(inTag: bool, s: string)
    requires s != []
    ensures Advance(inTag, s).2 <= |s|
    ensures Rendered(inTag, s) == Advance(inTag, s).0 + Rendered(Advance(inTag, s).1, s[Advance(inTag, s).2..])
  {
  }

  /**
   * Without an `&` the loop prints what the single-file browser's `show`
   * prints, so no angle bracket reaches the output.
   */
  lemma {:induction false} AgreesWithBrowser(inTag: bool, s: string)
    requires '&' !in s
    ensures Rendered(inTag, s) == LegacyBrowser.Shown(inTag, s)
    ensures '<' !in Rendered(inTag, s) && '>' !in Rendered(inTag, s)
    decreases |s|
  {
    if s != [] {
      var next := if s[0] == '<' then true else if s[0] == '>' then false else inTag;
      assert s[0] in s;
      assert forall c :: c in s[1..] ==> c in s;
      AgreesWithBrowser(next, s[1..]);
    }
  }

  /** Text as a page would carry it: each angle bracket written as its entity. */
  function Escape(t: string): (r: string)
    ensures '<' !in r && '>' !in r
    ensures '&' !in t ==> forall c :: c in t && c != '<' && c != '>' ==> c in r
    decreases |t|
  {
    if t == [] then []
    else (if t[0] == '<' then "&lt;" else if t[0] == '>' then "&gt;" else [t[0]]) + Escape(t[1..])
  }

  /**
   * Text without `&`, escaped, is printed back as it was: the two entities
   * are the inverse of escaping.
   */
  lemma {:induction false} EscapeRoundTrip(t: string)
    requires '&' !in t
    ensures Rendered(false, Escape(t)) == t
    decreases |t|
  {
    if t != [] {
      assert forall c :: c in t[1..] ==> c in t;
      EscapeRoundTrip(t[1..]);
      var rest := Escape(t[1..]);
      var head := if t[0] == '<' then "&lt;" else if t[0] == '>' then "&gt;" else [t[0]];
      assert Escape(t) == head + rest;
      if t[0] == '<' || t[0] == '>' {
        assert (head + rest)[..4] == head && (head + rest)[4..] == rest;
      } else {
        assert t[0] in t;
        assert (head + rest)[0] == t[0] && (head + rest)[1..] == rest;
      }
      assert t == [t[0]] + t[1..];
    }
  }

  /** An entity inside a tag is printed all the same. */
  lemma EntityInsideTag(s: string)
    ensures Rendered(true, "&lt;" + s) == "<" + Rendered(true, s)
    ensures Rendered(true, "&gt;" + s) == ">" + Rendered(true, s)
  {
    assert ("&lt;" + s)[4..] == s;
    assert ("&gt;" + s)[4..] == s;
  }
}
