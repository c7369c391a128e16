/**
 * RivaBrowser's `SecurityPolicy` (`riva/security.py`): the default
 * Content Security Policy, its serialisation as a header value, and the
 * URL prefix check.
 *
 * The header value follows the serialized-policy grammar of W3C Content
 * Security Policy Level 3, section 2.2: directives separated by `;`, each a
 * name followed by its sources, separated by spaces. `ParsePolicy` is the
 * parsing algorithm of section 2.2.1 of that standard, and the round-trip
 * lemma shows that what the browser emits parses back to the policy it
 * holds.
 */
module Security {
  import opened Common

  /** One entry of the `csp_rules` dictionary: a directive name and its source list. */
  datatype Directive = Directive(name: string, sources: seq<string>)

  /** The attributes `__init__` sets. `cspRules` keeps the dictionary's insertion order. */
  datatype SecurityPolicy = SecurityPolicy(
    cspRules: seq<Directive>,
    xssProtection: bool,
    csrfProtection: bool,
    contentTypeOptions: bool,
    frameOptions: string,
    referrerPolicy: string)

  /** The names of a list of directives, in order. */
  function Names(ds: seq<Directive>): (r: seq<string>)
    ensures |r| == |ds|
    ensures forall i :: 0 <= i < |ds| ==> r[i] == ds[i].name
  {
    seq(|ds|, i requires 0 <= i < |ds| => ds[i].name)
  }

  /** No name occurs twice, as in a dictionary. */
  predicate UniqueNames(ds: seq<Directive>)
  {
    forall i, j :: 0 <= i < j < |ds| ==> ds[i].name != ds[j].name
  }

  /** `csp_rules.get(name)`. */
  function SourcesOf(ds: seq<Directive>, name: string): (r: Option<seq<string>>)
    ensures r.None? <==> name !in Names(ds)
    ensures r.Some? ==> exists i :: 0 <= i < |ds| && ds[i] == Directive(name, r.value)
    decreases |ds|
  {
    if ds == [] then None
    else if ds[0].name == name then Some(ds[0].sources)
    else SourcesOf(ds[1..], name)
  }

  /** The policy `SecurityPolicy()` builds. */
  function DefaultPolicy(): SecurityPolicy
  {
    SecurityPolicy(
      [ Directive("default-src", ["'self'"]),
        Directive("script-src", ["'self'", "'unsafe-inline'"]),
        Directive("style-src", ["'self'", "'unsafe-inline'"]),
        Directive("img-src", ["'self'", "data:", "https:"]),
        Directive("connect-src", ["'self'", "https:"]),
        Directive("font-src", ["'self'", "https:"]),
        Directive("object-src", ["'none'"]),
        Directive("media-src", ["'self'"]),
        Directive("frame-src", ["'none'"]) ],
      true, true, true, "DENY", "strict-origin-when-cross-origin")
  }

  // -----------------------------------------------------------------------
  // The header value
  // -----------------------------------------------------------------------

  /** One directive as the f-string renders it: the name, a space, the sources joined by spaces. */
  function RenderDirective(d: Directive): string
  {
    d.name + " " + Join(d.sources, " ")
  }

  function RenderAll(ds: seq<Directive>): (r: seq<string>)
    ensures |r| == |ds|
    ensures forall i :: 0 <= i < |ds| ==> r[i] == RenderDirective(ds[i])
  {
    seq(|ds|, i requires 0 <= i < |ds| => RenderDirective(ds[i]))
  }

  /** `get_csp_header`: the rendered directives joined by `"; "`. */
  function CspHeader(p: SecurityPolicy): string
  {
    Join(RenderAll(p.cspRules), "; ")
  }

  /** A character a token may hold: neither whitespace nor `;`. */
  predicate IsTokenChar(c: char)
  {
    !IsSpace(c) && c != ';'
  }

  /** A name or source the grammar can carry: non-empty, no whitespace, no `;`. */
  predicate IsToken(s: string)
  {
    s != [] && forall i :: 0 <= i < |s| ==> IsTokenChar(s[i])
  }

  predicate AllTokens(ts: seq<string>)
  {
    forall k :: 0 <= k < |ts| ==> IsToken(ts[k])
  }

  /** A directive whose rendering parses back: a lowercase token name and token sources. */
  predicate Serializable(d: Directive)
  {
    IsToken(d.name) && Lower(d.name) == d.name && AllTokens(d.sources)
  }

  predicate AllSerializable(ds: seq<Directive>)
  {
    forall i :: 0 <= i < |ds| ==> Serializable(ds[i])
  }

  // -----------------------------------------------------------------------
  // Parsing a serialized policy (section 2.2.1 of CSP Level 3)
  // -----------------------------------------------------------------------

  /**
   * One `;`-separated piece: strip it, split it on spaces, lowercase the
   * first token as the name, keep the rest as the sources.
   */
  function ParseDirective(piece: string): Directive
  {
    var tokens := SplitChar(Strip(piece), ' ');
    Directive(Lower(tokens[0]), tokens[1..])
  }

  /**
   * The pieces in order: an empty piece is skipped, and so is a directive
   * whose name was already seen.
   */
  function ParsePieces(pieces: seq<string>, seen: set<string>): seq<Directive>
    decreases |pieces|
  {
    if pieces == [] then []
    else if Strip(pieces[0]) == [] then ParsePieces(pieces[1..], seen)
    else
      var d := ParseDirective(pieces[0]);
      if d.name in seen then ParsePieces(pieces[1..], seen)
      else [d] + ParsePieces(pieces[1..], seen + {d.name})
  }

  function ParsePolicy(header: string): seq<Directive>
  {
    ParsePieces(SplitChar(header, ';'), {})
  }

  /**
   * Joining with `"; "` is joining with `";"` the renderings with a space in
   * front of all but the first.
   */
  lemma {:induction false} JoinPadded(ds: seq<Directive>, first: bool)
    requires ds != []
    ensures (if first then "" else " ") + Join(RenderAll(ds), "; ") == Join(PadFrom(ds, first), ";")
    decreases |ds|
  {
    PadFromSplit(ds, first);
    if |ds| > 1 {
      JoinPadded(ds[1..], false);
      assert RenderAll(ds)[1..] == RenderAll(ds[1..]);
    }
  }

  /** The rendering of a directive holds no `;`. */
  lemma RenderNoSemicolon(d: Directive)
    requires Serializable(d)
    ensures ';' !in RenderDirective(d)
  {
    JoinTokensNoSpace(d.sources, ';');
  }

  /** A space-join of tokens holds neither a space nor `;` except the joining spaces. */
  lemma {:induction false} JoinTokensNoSpace(ts: seq<string>, c: char)
    requires AllTokens(ts)
    requires c == ';' || IsSpace(c)
    requires c != ' '
    ensures c !in Join(ts, " ")
    decreases |ts|
  {
    if |ts| > 1 {
      JoinTokensNoSpace(ts[1..], c);
      assert Join(ts, " ") == ts[0] + " " + Join(ts[1..], " ");
    }
  }

  /** Stripping a (padded) rendering leaves the space-join of the name and the sources. */
  lemma StripRendered(d: Directive, pad: string)
    requires IsToken(d.name) && AllTokens(d.sources)
    requires pad == [] || pad == " "
    ensures Strip(pad + RenderDirective(d)) == Join([d.name] + d.sources, " ")
  {
    JoinCons(d.name, d.sources, " ");
    PadIsSpace(pad);
    TokenEnds(d.name);
    var text := pad + RenderDirective(d);
    if d.sources == [] {
      assert text == pad + d.name + " ";
      StripBare(pad, d.name);
    } else {
      var v := d.name + " " + Join(d.sources, " ");
      JoinTokensEnds(d.sources);
      assert v[0] == d.name[0];
      assert text == pad + v + [];
      StripPadded(pad, v, []);
    }
  }

  lemma JoinCons(t: string, ts: seq<string>, sep: string)
    ensures Join([t] + ts, sep) == if ts == [] then t else t + sep + Join(ts, sep)
  {
    assert ([t] + ts)[1..] == ts;
  }

  lemma StripBare(pad: string, name: string)
    requires forall i :: 0 <= i < |pad| ==> IsSpace(pad[i])
    requires name != [] && !IsSpace(name[0]) && !IsSpace(name[|name| - 1])
    ensures Strip(pad + name + " ") == name
  {
    StripPadded(pad, name, " ");
  }

  lemma PadIsSpace(pad: string)
    requires pad == [] || pad == " "
    ensures forall i :: 0 <= i < |pad| ==> IsSpace(pad[i])
  {
  }

  lemma TokenEnds(t: string)
    requires IsToken(t)
    ensures !IsSpace(t[0]) && !IsSpace(t[|t| - 1])
  {
    assert IsTokenChar(t[0]) && IsTokenChar(t[|t| - 1]);
  }

  /** Parsing a (padded) rendering gives the directive back. */
  lemma ParseRendered(d: Directive, pad: string)
    requires Serializable(d)
    requires pad == [] || pad == " "
    ensures Strip(pad + RenderDirective(d)) != []
    ensures ParseDirective(pad + RenderDirective(d)) == d
  {
    var tokens := [d.name] + d.sources;
    StripRendered(d, pad);
    SpaceFree(d.name, d.sources);
    SplitJoin(tokens, ' ');
    assert tokens[0] == d.name && tokens[1..] == d.sources;
  }

  lemma SpaceFree(name: string, sources: seq<string>)
    requires IsToken(name) && AllTokens(sources)
    ensures forall k :: 0 <= k < |[name] + sources| ==> ' ' !in ([name] + sources)[k]
  {
    forall k | 0 <= k < |[name] + sources| ensures ' ' !in ([name] + sources)[k] {
      var t := ([name] + sources)[k];
      assert IsToken(t) by {
        if k > 0 {
          assert t == sources[k - 1];
        }
      }
      NoSpaceInToken(t);
    }
  }

  lemma NoSpaceInToken(t: string)
    requires IsToken(t)
    ensures ' ' !in t
  {
    forall i | 0 <= i < |t| ensures t[i] != ' ' {
      assert IsTokenChar(t[i]);
    }
  }

  /** A non-empty space-join of tokens ends in a token character. */
  lemma {:induction false} JoinTokensEnds(ts: seq<string>)
    requires ts != [] && AllTokens(ts)
    ensures Join(ts, " ") != [] && !IsSpace(Join(ts, " ")[|Join(ts, " ")| - 1])
    decreases |ts|
  {
    if |ts| > 1 {
      JoinTokensEnds(ts[1..]);
    }
  }

  /** Parsing the padded renderings of distinct directives gives them back. */
  lemma {:induction false} ParsePadded(ds: seq<Directive>, first: bool, seen: set<string>)
    requires Fresh(ds, seen)
    ensures ParsePieces(PadFrom(ds, first), seen) == ds
    decreases |ds|
  {
    if ds != [] {
      FreshHead(ds, seen);
      ParsePaddedStep(ds, first, seen);
      FreshTail(ds, seen);
      ParsePadded(ds[1..], false, seen + {ds[0].name});
      assert [ds[0]] + ds[1..] == ds;
    }
  }

  lemma ParsePaddedStep(ds: seq<Directive>, first: bool, seen: set<string>)
    requires ds != [] && Serializable(ds[0]) && ds[0].name !in seen
    ensures ParsePieces(PadFrom(ds, first), seen) == [ds[0]] + ParsePieces(PadFrom(ds[1..], false), seen + {ds[0].name})
  {
    var pad := if first then [] else " ";
    PadFromSplit(ds, first);
    ParseRendered(ds[0], pad);
    ParsePiecesCons(pad + RenderDirective(ds[0]), PadFrom(ds[1..], false), seen, ds[0]);
  }

  lemma PadFromSplit(ds: seq<Directive>, first: bool)
    requires ds != []
    ensures PadFrom(ds, first) == [(if first then [] else " ") + RenderDirective(ds[0])] + PadFrom(ds[1..], false)
  {
  }

  /** A piece that parses to a directive not seen before contributes exactly that directive. */
  lemma ParsePiecesCons(piece: string, rest: seq<string>, seen: set<string>, d: Directive)
    requires Strip(piece) != [] && ParseDirective(piece) == d && d.name !in seen
    ensures ParsePieces([piece] + rest, seen) == [d] + ParsePieces(rest, seen + {d.name})
  {
    assert ([piece] + rest)[1..] == rest;
  }

  /** Directives that parse back, with distinct names none of which is in `seen`. */
  predicate Fresh(ds: seq<Directive>, seen: set<string>)
  {
    AllSerializable(ds) && UniqueNames(ds) && forall i :: 0 <= i < |ds| ==> ds[i].name !in seen
  }

  lemma FreshHead(ds: seq<Directive>, seen: set<string>)
    requires ds != [] && Fresh(ds, seen)
    ensures Serializable(ds[0]) && ds[0].name !in seen
  {
  }

  lemma FreshTail(ds: seq<Directive>, seen: set<string>)
    requires ds != [] && Fresh(ds, seen)
    ensures Fresh(ds[1..], seen + {ds[0].name})
  {
    var tail := ds[1..];
    forall i | 0 <= i < |tail| ensures tail[i].name !in seen + {ds[0].name} && Serializable(tail[i]) {
      assert tail[i] == ds[i + 1];
    }
    forall i, j | 0 <= i < j < |tail| ensures tail[i].name != tail[j].name {
      assert tail[i] == ds[i + 1] && tail[j] == ds[j + 1];
    }
  }

  /** The padded renderings, the first one bare when `first`. */
  function PadFrom(ds: seq<Directive>, first: bool): (r: seq<string>)
    ensures |r| == |ds|
    ensures forall i :: 0 <= i < |ds| ==> r[i] == (if first && i == 0 then [] else " ") + RenderDirective(ds[i])
  {
    seq(|ds|, i requires 0 <= i < |ds| => (if first && i == 0 then [] else " ") + RenderDirective(ds[i]))
  }

  /**
   * The header the browser sends parses back, under the standard's
   * algorithm, to the directives of the policy, in order, whenever every
   * name and source is a token and every name is lowercase.
   */
  lemma CspHeaderRoundTrip(p: SecurityPolicy)
    requires AllSerializable(p.cspRules) && UniqueNames(p.cspRules)
    ensures ParsePolicy(CspHeader(p)) == p.cspRules
  {
    var ds := p.cspRules;
    if ds == [] {
      assert CspHeader(p) == [];
      StripNoSpace([]);
    } else {
      var pieces := PadFrom(ds, true);
      JoinPadded(ds, true);
      assert CspHeader(p) == Join(pieces, ";");
      forall i | 0 <= i < |ds| ensures ';' !in pieces[i] {
        RenderNoSemicolon(ds[i]);
      }
      SplitJoin(pieces, ';');
      assert SplitChar(CspHeader(p), ';') == pieces;
      assert Fresh(ds, {});
      ParsePadded(ds, true, {});
    }
  }

  /** A name different from every earlier one is found at its own entry. */
  lemma {:induction false} SourcesOfAt(ds: seq<Directive>, i: nat)
    requires i < |ds| && NewName(ds, i)
    ensures SourcesOf(ds, ds[i].name) == Some(ds[i].sources)
    decreases i
  {
    if i > 0 {
      assert ds[0].name != ds[i].name;
      var tail := ds[1..];
      assert tail[i - 1] == ds[i];
      forall j | 0 <= j < i - 1 ensures tail[j].name != tail[i - 1].name {
        assert tail[j] == ds[j + 1];
      }
      assert NewName(tail, i - 1);
      SourcesOfAt(tail, i - 1);
    }
  }

  /** Every name of a list is new where it stands. */
  predicate NewName(ds: seq<Directive>, i: nat)
    requires i < |ds|
  {
    forall j :: 0 <= j < i ==> ds[j].name != ds[i].name
  }

  lemma UniqueFromNew(ds: seq<Directive>)
    requires forall i :: 0 <= i < |ds| ==> NewName(ds, i)
    ensures UniqueNames(ds)
  {
    forall i, j | 0 <= i < j < |ds| ensures ds[i].name != ds[j].name {
      assert NewName(ds, j);
    }
  }

  /** The characters of the default policy's names and sources. */
  predicate PlainChar(c: char)
  {
    'a' <= c <= 'z' || c == '-' || c == '\'' || c == ':'
  }

  predicate Plain(s: string)
  {
    s != [] && forall i :: 0 <= i < |s| ==> PlainChar(s[i])
  }

  lemma PlainDirective(d: Directive)
    requires Plain(d.name) && forall k :: 0 <= k < |d.sources| ==> Plain(d.sources[k])
    ensures Serializable(d)
  {
    PlainToken(d.name);
    forall k | 0 <= k < |d.sources| ensures IsToken(d.sources[k]) {
      PlainToken(d.sources[k]);
    }
  }

  lemma PlainToken(s: string)
    requires Plain(s)
    ensures IsToken(s) && Lower(s) == s
  {
    forall i | 0 <= i < |s| ensures IsTokenChar(s[i]) && LowerChar(s[i]) == s[i] {
      assert PlainChar(s[i]);
    }
  }

  /** The default policy has nine directives with distinct names, `object-src` and `frame-src` both `'none'`. */
  lemma DefaultPolicyShape()
    ensures var ds := DefaultPolicy().cspRules;
            && |ds| == 9 && UniqueNames(ds)
            && SourcesOf(ds, "object-src") == Some(["'none'"])
            && SourcesOf(ds, "frame-src") == Some(["'none'"])
  {
    var ds := DefaultPolicy().cspRules;
    DefaultNewNames();
    UniqueFromNew(ds);
    assert NewName(ds, 6) && NewName(ds, 8);
    SourcesOfAt(ds, 6);
    SourcesOfAt(ds, 8);
    assert ds[6] == Directive("object-src", ["'none'"]) && ds[8] == Directive("frame-src", ["'none'"]);
  }

  lemma DefaultNewNames()
    ensures forall i :: 0 <= i < 9 ==> NewName(DefaultPolicy().cspRules, i)
  {
    var ds := DefaultPolicy().cspRules;
    assert NewName(ds, 0) && NewName(ds, 1) && NewName(ds, 2);
    assert NewName(ds, 3) && NewName(ds, 4) && NewName(ds, 5);
    assert NewName(ds, 6) && NewName(ds, 7) && NewName(ds, 8);
  }

  /** Every name and source of the default policy is a token and every name is lowercase. */
  lemma DefaultPolicySerializable()
    ensures AllSerializable(DefaultPolicy().cspRules)
  {
    var ds := DefaultPolicy().cspRules;
    DefaultStringsPlain();
    forall i | 0 <= i < |ds| ensures Serializable(ds[i]) {
      PlainDirective(ds[i]);
    }
  }

  lemma DefaultStringsPlain()
    ensures Plain("default-src") && Plain("script-src") && Plain("style-src")
    ensures Plain("img-src") && Plain("connect-src") && Plain("font-src")
    ensures Plain("object-src") && Plain("media-src") && Plain("frame-src")
    ensures Plain("'self'") && Plain("'unsafe-inline'") && Plain("data:") && Plain("https:") && Plain("'none'")
  {
  }

  /** The header the default policy sends parses back to its nine directives. */
  lemma DefaultHeaderRoundTrip()
    ensures ParsePolicy(CspHeader(DefaultPolicy())) == DefaultPolicy().cspRules
  {
    DefaultPolicyShape();
    DefaultPolicySerializable();
    CspHeaderRoundTrip(DefaultPolicy());
  }

  // -----------------------------------------------------------------------
  // URL validation
  // -----------------------------------------------------------------------

  /** `validate_url` as written: the allowed-prefix test, then the dangerous-prefix test. */
  function ValidateUrl(url: string): bool
  {
    if !(StartsWith(url, "http://") || StartsWith(url, "https://") || StartsWith(url, "file://")) then false
    else if StartsWith(url, "javascript:") || StartsWith(url, "data:") || StartsWith(url, "vbscript:") then false
    else true
  }

  /** A URL is accepted exactly when it starts with `http://`, `https://` or `file://`. */
  lemma ValidateUrlIsPrefixTest(url: string)
    ensures ValidateUrl(url) <==>
              StartsWith(url, "http://") || StartsWith(url, "https://") || StartsWith(url, "file://")
  {
    if StartsWith(url, "http://") || StartsWith(url, "https://") || StartsWith(url, "file://") {
      DangerousUnreachable(url);
    }
  }

  /** No URL with an allowed prefix has a dangerous one, so the second test never rejects anything. */
  lemma DangerousUnreachable(url: string)
    requires StartsWith(url, "http://") || StartsWith(url, "https://") || StartsWith(url, "file://")
    ensures !(StartsWith(url, "javascript:") || StartsWith(url, "data:") || StartsWith(url, "vbscript:"))
  {
    FirstChar(url, "http://");
    FirstChar(url, "https://");
    FirstChar(url, "file://");
    FirstChar(url, "javascript:");
    FirstChar(url, "data:");
    FirstChar(url, "vbscript:");
  }

  lemma FirstChar(s: string, prefix: string)
    ensures StartsWith(s, prefix) && prefix != [] ==> s[0] == prefix[0]
  {
    if StartsWith(s, prefix) && prefix != [] {
      assert s[..|prefix|][0] == s[0];
    }
  }
}
