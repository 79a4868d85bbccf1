/**
 * Input sanitization for the chat box (src/utils/sanitize.ts): tag stripping,
 * HTML escaping, the suspicious-pattern and dangerous-scheme denylists, and the
 * validate -> strip -> escape -> trim pipeline.
 */
module Sanitize {
  import opened Types
  import opened Strings

  /* ---------------------------------------------------------------------- */
  /* stripHtml: `input.replace(/<[^>]*>/g, '')`                              */
  /* ---------------------------------------------------------------------- */

  /** Index of the first occurrence of `c` in `t`. */
  function IndexOf(t: string, c: char): (r: nat)
    requires c in t
    ensures r < |t| && t[r] == c && c !in t[..r]
  {
    if t[0] == c then 0
    else
      assert c in t[1..];
      1 + IndexOf(t[1..], c)
  }

  /**
   * Removes every match of `<[^>]*>`, scanning left to right: a `<` that has a
   * `>` somewhere after it starts a match that runs to the first such `>`; a
   * `<` with no `>` after it is kept.
   */
  function StripHtml(s: string): (r: string)
    ensures |r| <= |s|
    decreases |s|
  {
    if s == [] then []
    else if s[0] == '<' && '>' in s[1..] then StripHtml(s[IndexOf(s[1..], '>') + 2..])
    else [s[0]] + StripHtml(s[1..])
  }

  /**
   * No `<` of `s` has a `>` anywhere after it: `s` holds no match of
   * `<[^>]*>`.
   */
  predicate TagFree(s: string)
    decreases |s|
  {
    s == [] || ((s[0] == '<' ==> '>' !in s[1..]) && TagFree(s[1..]))
  }

  /** `TagFree` is the index-wise statement "no `<` is followed later by a `>`". */
  lemma {:induction false} TagFreeMeansNoLaterClose(s: string)
    ensures TagFree(s) <==> forall i, j :: 0 <= i < j < |s| && s[i] == '<' ==> s[j] != '>'
    decreases |s|
  {
    if s != [] {
      TagFreeMeansNoLaterClose(s[1..]);
      if TagFree(s) {
        forall i, j | 0 <= i < j < |s| && s[i] == '<' ensures s[j] != '>' {
          if i == 0 {
            assert s[j] == s[1..][j - 1];
          } else {
            assert s[i] == s[1..][i - 1] && s[j] == s[1..][j - 1];
          }
        }
      } else if s[0] == '<' && '>' in s[1..] {
        var j :| 0 <= j < |s[1..]| && s[1..][j] == '>';
        assert s[j + 1] == '>';
      } else {
        var i, j :| 0 <= i < j < |s[1..]| && s[1..][i] == '<' && s[1..][j] == '>';
        assert s[i + 1] == '<' && s[j + 1] == '>';
      }
    }
  }

  /** `a` is a subsequence of `b`: `a` is `b` with some characters deleted. */
  predicate IsSubsequence(a: string, b: string)
    decreases |b|
  {
    if a == [] then true
    else if b == [] then false
    else if a[0] == b[0] then IsSubsequence(a[1..], b[1..])
    else IsSubsequence(a, b[1..])
  }

  lemma {:induction false} SubsequencePrepend(a: string, c: char, b: string)
    requires IsSubsequence(a, b)
    ensures IsSubsequence(a, [c] + b)
    decreases |b|, 1
  {
    assert ([c] + b)[1..] == b;
    if a != [] && a[0] == c {
      SubsequenceDropFirst(a, b);
    }
  }

  lemma {:induction false} SubsequenceDropFirst(a: string, b: string)
    requires a != [] && IsSubsequence(a, b)
    ensures IsSubsequence(a[1..], b)
    decreases |b|, 0
  {
    assert [b[0]] + b[1..] == b;
    if a[0] == b[0] {
      SubsequencePrepend(a[1..], b[0], b[1..]);
    } else {
      SubsequenceDropFirst(a, b[1..]);
      SubsequencePrepend(a[1..], b[0], b[1..]);
    }
  }

  lemma {:induction false} SubsequenceExtend(a: string, x: string, b: string)
    requires IsSubsequence(a, b)
    ensures IsSubsequence(a, x + b)
    decreases |x|
  {
    if x != [] {
      assert [x[0]] + (x[1..] + b) == x + b;
      SubsequenceExtend(a, x[1..], b);
      SubsequencePrepend(a, x[0], x[1..] + b);
    } else {
      assert x + b == b;
    }
  }

  lemma {:induction false} SubsequenceChars(a: string, b: string, c: char)
    requires IsSubsequence(a, b) && c in a
    ensures c in b
    decreases |b|
  {
    if a[0] == b[0] {
      if c != a[0] {
        assert c in a[1..];
        SubsequenceChars(a[1..], b[1..], c);
      }
    } else {
      SubsequenceChars(a, b[1..], c);
    }
  }

  /** The output of `StripHtml` is the input with some characters deleted. */
  lemma {:induction false} StripHtmlSubsequence(s: string)
    ensures IsSubsequence(StripHtml(s), s)
    decreases |s|
  {
    if s == [] {
    } else if s[0] == '<' && '>' in s[1..] {
      var k := IndexOf(s[1..], '>') + 2;
      StripHtmlSubsequence(s[k..]);
      SubsequenceExtend(StripHtml(s[k..]), s[..k], s[k..]);
      assert s[..k] + s[k..] == s;
    } else {
      StripHtmlSubsequence(s[1..]);
      var r := StripHtml(s);
      assert r[0] == s[0] && r[1..] == StripHtml(s[1..]);
    }
  }

  lemma StripHtmlChars(s: string, c: char)
    requires c in StripHtml(s)
    ensures c in s
  {
    StripHtmlSubsequence(s);
    SubsequenceChars(StripHtml(s), s, c);
  }

  /** No `<` in the output of `StripHtml` is followed anywhere later by a `>`. */
  lemma {:induction false} StripHtmlLeavesNoTag(s: string)
    ensures TagFree(StripHtml(s))
    decreases |s|
  {
    if s == [] {
    } else if s[0] == '<' && '>' in s[1..] {
      StripHtmlLeavesNoTag(s[IndexOf(s[1..], '>') + 2..]);
    } else {
      var rest := StripHtml(s[1..]);
      StripHtmlLeavesNoTag(s[1..]);
      var r := [s[0]] + rest;
      assert r[1..] == rest;
      if s[0] == '<' && '>' in rest {
        StripHtmlChars(s[1..], '>');
      }
    }
  }

  /** Text without tags passes through `StripHtml` unchanged. */
  lemma {:induction false} StripHtmlKeepsTagFree(s: string)
    requires TagFree(s)
    ensures StripHtml(s) == s
    decreases |s|
  {
    if s != [] {
      StripHtmlKeepsTagFree(s[1..]);
      assert [s[0]] + s[1..] == s;
    }
  }

  /** Text with a tag gets strictly shorter. */
  lemma {:induction false} StripHtmlShortensTagged(s: string)
    requires !TagFree(s)
    ensures |StripHtml(s)| < |s|
    decreases |s|
  {
    if !(s[0] == '<' && '>' in s[1..]) {
      StripHtmlShortensTagged(s[1..]);
    }
  }

  /** `StripHtml` changes its input exactly when the input holds a tag. */
  lemma StripHtmlFixpoint(s: string)
    ensures StripHtml(s) == s <==> TagFree(s)
  {
    if TagFree(s) {
      StripHtmlKeepsTagFree(s);
    } else {
      StripHtmlShortensTagged(s);
    }
  }

  /** `StripHtml` is idempotent. */
  lemma StripHtmlIdempotent(s: string)
    ensures StripHtml(StripHtml(s)) == StripHtml(s)
  {
    StripHtmlLeavesNoTag(s);
    StripHtmlKeepsTagFree(StripHtml(s));
  }

  /* ---------------------------------------------------------------------- */
  /* escapeHtml: the DOM's textContent/innerHTML round trip, i.e. "escaping   */
  /* a string" of the fragment serialisation algorithm of the WHATWG HTML     */
  /* Living Standard, section 13.3, outside attribute mode.                   */
  /* ---------------------------------------------------------------------- */

  /** The characters the serialiser replaces by a character reference. */
  predicate IsEscaped(c: char)
  {
    c == '&' || c == '\U{A0}' || c == '<' || c == '>'
  }

  function EscapeChar(c: char): (r: string)
    ensures |r| >= 1 && '<' !in r && '>' !in r
    ensures !IsEscaped(c) ==> r == [c]
    ensures IsEscaped(c) ==> r[0] == '&' && r[|r| - 1] == ';'
  {
    if c == '&' then "&amp;"
    else if c == '\U{A0}' then "&nbsp;"
    else if c == '<' then "&lt;"
    else if c == '>' then "&gt;"
    else [c]
  }

  function EscapeHtml(s: string): (r: string)
    ensures |r| >= |s|
    ensures '<' !in r && '>' !in r
    decreases |s|
  {
    if s == [] then [] else EscapeChar(s[0]) + EscapeHtml(s[1..])
  }

  /** Decoding of the four references `EscapeHtml` produces; the partner of `EscapeHtml`. */
  function UnescapeHtml(t: string): string
    decreases |t|
  {
    if t == [] then []
    else if "&amp;" <= t then ['&'] + UnescapeHtml(t[5..])
    else if "&nbsp;" <= t then ['\U{A0}'] + UnescapeHtml(t[6..])
    else if "&lt;" <= t then ['<'] + UnescapeHtml(t[4..])
    else if "&gt;" <= t then ['>'] + UnescapeHtml(t[4..])
    else [t[0]] + UnescapeHtml(t[1..])
  }

  /** A string differing from `p` at position `k` does not start with `p`. */
  lemma NotPrefixAt(p: string, t: string, k: nat)
    requires k < |p| && k < |t| && t[k] != p[k]
    ensures !(p <= t)
  {
  }

  /** Decoding an escaped character followed by any text gives the character back first. */
  lemma UnescapeEscapedChar(c: char, rest: string)
    ensures UnescapeHtml(EscapeChar(c) + rest) == [c] + UnescapeHtml(rest)
  {
    var e := EscapeChar(c);
    var t := e + rest;
    assert t[|e|..] == rest;
    if !IsEscaped(c) {
      NotPrefixAt("&amp;", t, 0);
      NotPrefixAt("&nbsp;", t, 0);
      NotPrefixAt("&lt;", t, 0);
      NotPrefixAt("&gt;", t, 0);
    } else if c == '&' {
      assert t[..5] == e;
    } else if c == '\U{A0}' {
      NotPrefixAt("&amp;", t, 1);
      assert t[..6] == e;
    } else if c == '<' {
      NotPrefixAt("&amp;", t, 1);
      NotPrefixAt("&nbsp;", t, 1);
      assert t[..4] == e;
    } else {
      NotPrefixAt("&amp;", t, 1);
      NotPrefixAt("&nbsp;", t, 1);
      NotPrefixAt("&lt;", t, 1);
      assert t[..4] == e;
    }
  }

  /** Escaping loses nothing: decoding the escaped text gives the input back. */
  lemma {:induction false} EscapeRoundTrip(s: string)
    ensures UnescapeHtml(EscapeHtml(s)) == s
    decreases |s|
  {
    if s != [] {
      UnescapeEscapedChar(s[0], EscapeHtml(s[1..]));
      EscapeRoundTrip(s[1..]);
      assert [s[0]] + s[1..] == s;
    }
  }

  /** Text without `&`, `<`, `>` or U+00A0. */
  predicate Plain(s: string)
  {
    forall k :: 0 <= k < |s| ==> !IsEscaped(s[k])
  }

  /** Text without `&`, `<`, `>` or U+00A0 passes through `EscapeHtml` unchanged. */
  lemma {:induction false} EscapeKeepsPlain(s: string)
    requires Plain(s)
    ensures EscapeHtml(s) == s
    decreases |s|
  {
    if s != [] {
      EscapeKeepsPlain(s[1..]);
      assert [s[0]] + s[1..] == s;
    }
  }

  /* ---------------------------------------------------------------------- */
  /* Dangerous protocols                                                    */
  /* ---------------------------------------------------------------------- */

  const DANGEROUS_PROTOCOLS: seq<string> := ["javascript:", "data:", "vbscript:", "file:"]

  /** The lower-cased input includes one of the dangerous schemes. */
  predicate ContainsDangerousProtocols(s: string)
  {
    exists k :: 0 <= k < |DANGEROUS_PROTOCOLS| && Contains(Lower(s), DANGEROUS_PROTOCOLS[k])
  }

  /** An occurrence of a scheme in any mix of letter case is detected. */
  lemma DangerousProtocolDetected(s: string, k: nat, i: nat)
    requires k < |DANGEROUS_PROTOCOLS|
    requires i + |DANGEROUS_PROTOCOLS[k]| <= |s|
    requires Lower(s[i..i + |DANGEROUS_PROTOCOLS[k]|]) == DANGEROUS_PROTOCOLS[k]
    ensures ContainsDangerousProtocols(s)
  {
    var p := DANGEROUS_PROTOCOLS[k];
    assert Lower(s)[i..i + |p|] == Lower(s[i..i + |p|]);
    ContainsAt(Lower(s), p, i);
  }

  /** Conversely, a detected scheme occurs in the input in some mix of letter case. */
  lemma DangerousProtocolLocated(s: string) returns (k: nat, i: nat)
    requires ContainsDangerousProtocols(s)
    ensures k < |DANGEROUS_PROTOCOLS| && i + |DANGEROUS_PROTOCOLS[k]| <= |s|
    ensures Lower(s[i..i + |DANGEROUS_PROTOCOLS[k]|]) == DANGEROUS_PROTOCOLS[k]
  {
    k :| 0 <= k < |DANGEROUS_PROTOCOLS| && Contains(Lower(s), DANGEROUS_PROTOCOLS[k]);
    var p := DANGEROUS_PROTOCOLS[k];
    i := ContainsImpliesOccurrence(Lower(s), p);
    assert Lower(s)[i..i + |p|] == Lower(s[i..i + |p|]);
  }

  /** A hit of `includes` names a position where the pattern occurs. */
  lemma {:induction false} ContainsImpliesOccurrence(s: string, pat: string) returns (i: nat)
    requires Contains(s, pat)
    ensures i + |pat| <= |s| && s[i..i + |pat|] == pat
    decreases |s|
  {
    if pat <= s {
      i := 0;
    } else {
      var j := ContainsImpliesOccurrence(s[1..], pat);
      i := j + 1;
      assert s[i..i + |pat|] == s[1..][j..j + |pat|];
    }
  }

  /* ---------------------------------------------------------------------- */
  /* Suspicious patterns: each regex of SUSPICIOUS_PATTERNS as the length of */
  /* its match at the start of a string (all six are case-insensitive).      */
  /* ---------------------------------------------------------------------- */

  datatype Pattern =
    | ScriptElement     // /<script\b[^<]*(?:(?!<\/script>)<[^<]*)*<\/script>/gi
    | IframeElement     // the same shape for iframe
    | JavascriptScheme  // /javascript:/gi
    | EventHandler      // /on\w+\s*=/gi
    | ObjectElement     // the same shape as script, for object
    | EmbedElement      // /<embed\b[^<]*>/gi

  const SUSPICIOUS_PATTERNS: seq<Pattern> :=
    [ScriptElement, IframeElement, JavascriptScheme, EventHandler, ObjectElement, EmbedElement]

  /** `\b` right after a word character at position `k - 1`. */
  predicate BoundaryAt(t: string, k: nat)
    requires k <= |t|
  {
    k == |t| || !IsWordChar(t[k])
  }

  /** The first position `j >= from` where `pat` starts, ignoring letter case. */
  function FindCi(t: string, from: nat, pat: string): (r: Option<nat>)
    requires from <= |t|
    ensures r.Some? ==> from <= r.value && r.value + |pat| <= |t| && CiStartsWith(t[r.value..], pat)
    ensures r.Some? ==> forall j :: from <= j < r.value ==> !CiStartsWith(t[j..], pat)
    ensures r.None? ==> forall j :: from <= j <= |t| ==> !CiStartsWith(t[j..], pat)
    decreases |t| - from
  {
    if CiStartsWith(t[from..], pat) then Some(from)
    else if from == |t| then None
    else FindCi(t, from + 1, pat)
  }

  /** End of the longest run of characters satisfying `\w` that starts at `p`. */
  function WordRunEnd(t: string, p: nat): (q: nat)
    requires p <= |t|
    ensures p <= q <= |t| && (q == |t| || !IsWordChar(t[q]))
    ensures forall k :: p <= k < q ==> IsWordChar(t[k])
    decreases |t| - p
  {
    if p < |t| && IsWordChar(t[p]) then WordRunEnd(t, p + 1) else p
  }

  /** End of the longest run of characters satisfying `\s` that starts at `p`. */
  function SpaceRunEnd(t: string, p: nat): (q: nat)
    requires p <= |t|
    ensures p <= q <= |t| && (q == |t| || !IsJsSpace(t[q]))
    ensures forall k :: p <= k < q ==> IsJsSpace(t[k])
    decreases |t| - p
  {
    if p < |t| && IsJsSpace(t[p]) then SpaceRunEnd(t, p + 1) else p
  }

  /** The first position at or after `p` holding `c`, or `|t|`. */
  function NextIndexOf(t: string, p: nat, c: char): (q: nat)
    requires p <= |t|
    ensures p <= q <= |t| && (q < |t| ==> t[q] == c)
    ensures forall k :: p <= k < q ==> t[k] != c
    decreases |t| - p
  {
    if p == |t| || t[p] == c then p else NextIndexOf(t, p + 1, c)
  }

  /** The last position in `[lo, hi)` holding `c`. */
  function LastIndexIn(t: string, lo: nat, hi: nat, c: char): (r: Option<nat>)
    requires lo <= hi <= |t|
    ensures r.Some? ==> lo <= r.value < hi && t[r.value] == c
    ensures r.Some? ==> forall k :: r.value < k < hi ==> t[k] != c
    ensures r.None? ==> forall k :: lo <= k < hi ==> t[k] != c
    decreases hi - lo
  {
    if lo == hi then None
    else if t[hi - 1] == c then Some(hi - 1)
    else LastIndexIn(t, lo, hi - 1, c)
  }

  /**
   * `<name\b` up to and including the first closing tag after it: the tempered
   * token `(?:(?!<\/name>)<[^<]*)*` cannot step over a closing tag, so the
   * match ends at the first one.
   */
  function ElementMatch(t: string, name: string): (r: Option<nat>)
    ensures r.Some? ==> 0 < r.value <= |t|
  {
    var open, close := "<" + name, "</" + name + ">";
    if CiStartsWith(t, open) && BoundaryAt(t, |open|) then
      match FindCi(t, |open|, close)
      case Some(j) => Some(j + |close|)
      case None => None
    else None
  }

  /**
   * Length of the match of `p` that starts at position 0 of `t`, as the regex
   * engine finds it (greedy quantifiers, backtracking), when there is one.
   */
  function MatchAt(p: Pattern, t: string): (r: Option<nat>)
    ensures r.Some? ==> 0 < r.value <= |t|
  {
    match p
    case ScriptElement => ElementMatch(t, "script")
    case IframeElement => ElementMatch(t, "iframe")
    case ObjectElement => ElementMatch(t, "object")
    case JavascriptScheme => if CiStartsWith(t, "javascript:") then Some(11) else None
    case EventHandler =>
      // `\w+` and `\s*` are greedy; giving characters back cannot expose an `=`
      if CiStartsWith(t, "on") then
        var k := WordRunEnd(t, 2);
        var m := SpaceRunEnd(t, k);
        if k > 2 && m < |t| && t[m] == '=' then Some(m + 1) else None
      else None
    case EmbedElement =>
      // `[^<]*` runs to the next `<`, then backs up to the last `>` before it
      if CiStartsWith(t, "<embed") && BoundaryAt(t, 6) then
        match LastIndexIn(t, 6, NextIndexOf(t, 6, '<'), '>')
        case Some(g) => Some(g + 1)
        case None => None
      else None
  }

  /** `pattern.test(s)` from the start of the string: a match begins at some position. */
  predicate AnyMatch(p: Pattern, s: string)
    decreases |s|
  {
    if s == [] then false else MatchAt(p, s).Some? || AnyMatch(p, s[1..])
  }

  lemma {:induction false} AnyMatchAt(p: Pattern, s: string, i: nat)
    requires i < |s| && MatchAt(p, s[i..]).Some?
    ensures AnyMatch(p, s)
    decreases i
  {
    if i > 0 {
      assert s[1..][i - 1..] == s[i..];
      AnyMatchAt(p, s[1..], i - 1);
    }
  }

  /** `SUSPICIOUS_PATTERNS.some(pattern => pattern.test(input))`. */
  predicate ContainsSuspiciousPatterns(s: string)
  {
    exists k :: 0 <= k < |SUSPICIOUS_PATTERNS| && AnyMatch(SUSPICIOUS_PATTERNS[k], s)
  }

  /** The longest word run from `p` reaches at least as far as any word run from `p`. */
  lemma {:induction false} WordRunCovers(t: string, p: nat, q: nat)
    requires p <= q <= |t|
    requires forall x :: p <= x < q ==> IsWordChar(t[x])
    ensures WordRunEnd(t, p) >= q
    decreases q - p
  {
    if p < q {
      WordRunCovers(t, p + 1, q);
    }
  }

  /** The longest space run from `p` reaches at least as far as any space run from `p`. */
  lemma {:induction false} SpaceRunCovers(t: string, p: nat, q: nat)
    requires p <= q <= |t|
    requires forall x :: p <= x < q ==> IsJsSpace(t[x])
    ensures SpaceRunEnd(t, p) >= q
    decreases q - p
  {
    if p < q {
      SpaceRunCovers(t, p + 1, q);
    }
  }

  /**
   * An event-handler assignment anywhere in the input, `on` (any case), one or
   * more word characters, optional white space and `=`, is detected.
   */
  lemma EventHandlerDetected(s: string, i: nat, k: nat, m: nat)
    requires i + 2 < k <= m < |s|
    requires Lower(s[i..i + 2]) == "on"
    requires forall x :: i + 2 <= x < k ==> IsWordChar(s[x])
    requires forall x :: k <= x < m ==> IsJsSpace(s[x])
    requires s[m] == '='
    ensures ContainsSuspiciousPatterns(s)
  {
    var t := s[i..];
    assert t[..2] == s[i..i + 2];
    WordRunCovers(t, 2, k - i);
    assert !IsWordChar(t[k - i]) by {
      assert t[k - i] == s[k];
      if k < m {
        assert IsJsSpace(s[k]);
      }
    }
    var k' := WordRunEnd(t, 2);
    assert k' == k - i;
    SpaceRunCovers(t, k', m - i);
    assert t[m - i] == '=';
    var m' := SpaceRunEnd(t, k');
    assert m' == m - i;
    assert MatchAt(EventHandler, t).Some?;
    AnyMatchAt(EventHandler, s, i);
    assert SUSPICIOUS_PATTERNS[3] == EventHandler;
  }

  /** `javascript:` in any letter case is detected as a suspicious pattern. */
  lemma JavascriptSchemeDetected(s: string, i: nat)
    requires i + 11 <= |s| && Lower(s[i..i + 11]) == "javascript:"
    ensures ContainsSuspiciousPatterns(s)
  {
    assert s[i..][..11] == s[i..i + 11];
    AnyMatchAt(JavascriptScheme, s, i);
    assert SUSPICIOUS_PATTERNS[2] == JavascriptScheme;
  }

  /** The three patterns of the shape `<name\b ... <\/name>`, with their element names. */
  predicate ElementOf(p: Pattern, name: string)
  {
    (p == ScriptElement && name == "script") || (p == IframeElement && name == "iframe") ||
    (p == ObjectElement && name == "object")
  }

  /**
   * `<name` (any case) on a word boundary, with a closing tag anywhere after
   * it, is matched by the element's pattern from its start.
   */
  lemma ElementDetected(p: Pattern, name: string, s: string, i: nat, j: nat)
    requires ElementOf(p, name)
    requires i + |name| + 1 <= j <= |s|
    requires CiStartsWith(s[i..], "<" + name) && BoundaryAt(s[i..], |name| + 1)
    requires CiStartsWith(s[j..], "</" + name + ">")
    ensures AnyMatch(p, s)
  {
    var t := s[i..];
    assert t[j - i..] == s[j..];
    assert FindCi(t, |name| + 1, "</" + name + ">").Some?;
    AnyMatchAt(p, s, i);
  }

  /**
   * Without its closing tag anywhere in the text, an element pattern matches
   * nowhere: an unclosed `<script>` is not a suspicious pattern.
   */
  lemma {:induction false} UnclosedElementUnmatched(p: Pattern, name: string, s: string)
    requires ElementOf(p, name)
    requires forall j :: 0 <= j <= |s| ==> !CiStartsWith(s[j..], "</" + name + ">")
    ensures !AnyMatch(p, s)
    decreases |s|
  {
    if s != [] {
      assert MatchAt(p, s).None?;
      forall j | 0 <= j <= |s[1..]| ensures !CiStartsWith(s[1..][j..], "</" + name + ">") {
        assert s[1..][j..] == s[j + 1..];
      }
      UnclosedElementUnmatched(p, name, s[1..]);
    }
  }

  /* ---------------------------------------------------------------------- */
  /* sanitizeForDisplay: each pattern replaced globally by '', then trim    */
  /* ---------------------------------------------------------------------- */

  /** Where a regular expression's match at the start of a string ends, if it matches there. */
  type Matcher = string -> Option<nat>

  /** A match, when there is one, is non-empty and lies within the string. */
  ghost predicate Advances(m: Matcher)
  {
    forall t :: m(t).Some? ==> 0 < m(t).value <= |t|
  }

  /** The matcher of a suspicious pattern. */
  function Matches(p: Pattern): (m: Matcher)
    ensures Advances(m)
    ensures forall t :: m(t) == MatchAt(p, t)
  {
    t => MatchAt(p, t)
  }

  /**
   * `s.replace(re, '')` for a global `re`: matches are looked for from left to
   * right in the original text, and each is dropped.
   */
  function Replace(m: Matcher, s: string): (r: string)
    requires Advances(m)
    ensures |r| <= |s|
    decreases |s|
  {
    if s == [] then []
    else match m(s)
      case Some(n) => Replace(m, s[n..])
      case None => [s[0]] + Replace(m, s[1..])
  }

  /** `s.replace(pattern, '')` for one of the suspicious patterns. */
  function ReplaceAll(p: Pattern, s: string): (r: string)
    ensures |r| <= |s|
  {
    Replace(Matches(p), s)
  }

  /** Replacing a pattern changes the text exactly when the pattern occurs in it. */
  lemma ReplaceAllFixpoint(p: Pattern, s: string)
    ensures ReplaceAll(p, s) == s <==> !AnyMatch(p, s)
  {
    ReplaceFixpoint(Matches(p), s);
    AnyMatchHits(p, s);
  }

  /** Some suffix of `s` is matched by `m`. */
  predicate Hits(m: Matcher, s: string)
    decreases |s|
  {
    s != [] && (m(s).Some? || Hits(m, s[1..]))
  }

  /** `AnyMatch` is `Hits` for the pattern's matcher. */
  lemma {:induction false} AnyMatchHits(p: Pattern, s: string)
    ensures AnyMatch(p, s) == Hits(Matches(p), s)
    decreases |s|
  {
    if s != [] {
      AnyMatchHits(p, s[1..]);
    }
  }

  /** A replacement leaves the text unchanged exactly when nothing in it matches. */
  lemma {:induction false} ReplaceFixpoint(m: Matcher, s: string)
    requires Advances(m)
    ensures Replace(m, s) == s <==> !Hits(m, s)
    decreases |s|
  {
    if s != [] {
      ReplaceFixpoint(m, s[1..]);
      match m(s)
      case Some(n) =>
        assert |Replace(m, s)| <= |s| - n;
      case None =>
        assert Replace(m, s) == [s[0]] + Replace(m, s[1..]);
        if Replace(m, s[1..]) != s[1..] {
          assert Replace(m, s)[1..] == Replace(m, s[1..]);
        }
    }
  }


  /** The patterns applied one after the other, in list order. */
  function RemovePatterns(s: string, ps: seq<Pattern>): (r: string)
    ensures |r| <= |s|
    decreases |ps|
  {
    if ps == [] then s else RemovePatterns(ReplaceAll(ps[0], s), ps[1..])
  }

  function SanitizeForDisplay(s: string): string
  {
    if s == [] then [] else Trim(RemovePatterns(s, SUSPICIOUS_PATTERNS))
  }

  /** The characters a match of `p` can begin with. */
  predicate CanStart(p: Pattern, c: char)
  {
    match p
    case JavascriptScheme => c == 'j' || c == 'J'
    case EventHandler => c == 'o' || c == 'O'
    case _ => c == '<'
  }

  /** A case-insensitive prefix test fails when the first characters differ up to case. */
  lemma CiStartsWithFirst(t: string, pat: string)
    requires pat != [] && t != [] && LowerChar(t[0]) != pat[0]
    ensures !CiStartsWith(t, pat)
  {
    if |pat| <= |t| {
      assert Lower(t[..|pat|])[0] == LowerChar(t[0]);
    }
  }

  /** No match of `p` begins with a character `CanStart` rules out. */
  lemma NoMatchAtUnstartable(p: Pattern, t: string)
    requires t != [] && !CanStart(p, t[0])
    ensures MatchAt(p, t).None?
  {
    match p
    case ScriptElement => ElementNoMatch(t, "script");
    case IframeElement => ElementNoMatch(t, "iframe");
    case ObjectElement => ElementNoMatch(t, "object");
    case EmbedElement => CiStartsWithFirst(t, "<embed");
    case JavascriptScheme => CiStartsWithFirst(t, "javascript:");
    case EventHandler => CiStartsWithFirst(t, "on");
  }

  /** An element pattern cannot match text that does not begin with `<`. */
  lemma ElementNoMatch(t: string, name: string)
    requires t != [] && t[0] != '<'
    ensures ElementMatch(t, name).None?
  {
    CiStartsWithFirst(t, "<" + name);
  }


  /** Where no match begins, the first character is kept. */
  lemma ReplaceSkips(m: Matcher, s: string)
    requires Advances(m) && s != [] && m(s).None?
    ensures Replace(m, s) == [s[0]] + Replace(m, s[1..])
  {
  }

  /** The same, for the suffix from position `k`. */
  lemma ReplaceSkipsAt(m: Matcher, s: string, k: nat)
    requires Advances(m) && k < |s| && m(s[k..]).None?
    ensures Replace(m, s[k..]) == [s[k]] + Replace(m, s[k + 1..])
  {
    ReplaceSkips(m, s[k..]);
    assert s[k..][1..] == s[k + 1..];
  }

  /** One more unmatched position in front of a kept range extends it. */
  lemma ReplaceRangeStep(m: Matcher, s: string, k: nat, n: nat, rest: string)
    requires Advances(m) && k < n <= |s| && m(s[k..]).None?
    requires Replace(m, s[k + 1..]) == s[k + 1..n] + rest
    ensures Replace(m, s[k..]) == s[k..n] + rest
  {
    ReplaceSkipsAt(m, s, k);
    assert s[k..n] == [s[k]] + s[k + 1..n];
  }

  /** Positions `k` to `n` of `s`, at none of which a match begins, are kept as they are. */
  lemma {:induction false} ReplaceKeepsRange(m: Matcher, s: string, k: nat, n: nat)
    requires Advances(m) && k <= n <= |s|
    requires forall i :: k <= i < n ==> m(s[i..]).None?
    ensures Replace(m, s[k..]) == s[k..n] + Replace(m, s[n..])
    decreases n - k
  {
    if k < n {
      ReplaceKeepsRange(m, s, k + 1, n);
      ReplaceRangeStep(m, s, k, n, Replace(m, s[n..]));
    } else {
      assert s[k..n] == [];
    }
  }

  /** Where a match begins, it is dropped and the search carries on after it. */
  lemma ReplaceMatched(m: Matcher, s: string, n: nat)
    requires Advances(m) && s != [] && m(s) == Some(n)
    ensures Replace(m, s) == Replace(m, s[n..])
  {
  }

  /** No match of `p` begins inside a stretch holding none of the characters one can begin with. */
  lemma NoMatchInUnstartable(p: Pattern, s: string, n: nat)
    requires n <= |s|
    requires forall i :: 0 <= i < n ==> !CanStart(p, s[i])
    ensures forall i :: 0 <= i < n ==> Matches(p)(s[i..]).None?
  {
    forall i | 0 <= i < n ensures Matches(p)(s[i..]).None? {
      NoMatchAtUnstartable(p, s[i..]);
    }
  }

  /** Text holding no character a match of `p` could begin with is left as it is. */
  lemma ReplaceAllUnstartable(p: Pattern, s: string)
    requires forall i :: 0 <= i < |s| ==> !CanStart(p, s[i])
    ensures ReplaceAll(p, s) == s
  {
    NoMatchInUnstartable(p, s, |s|);
    ReplaceKeepsRange(Matches(p), s, 0, |s|);
    assert s[0..] == s && s[0..|s|] == s && s[|s|..] == [];
  }

  /** Patterns none of which changes the text leave it as it is. */
  lemma {:induction false} RemovePatternsFixed(s: string, ps: seq<Pattern>)
    requires forall k :: 0 <= k < |ps| ==> ReplaceAll(ps[k], s) == s
    ensures RemovePatterns(s, ps) == s
    decreases |ps|
  {
    if ps != [] {
      assert ReplaceAll(ps[0], s) == s;
      forall k | 0 <= k < |ps[1..]| ensures ReplaceAll(ps[1..][k], s) == s {
        assert ps[1..][k] == ps[k + 1];
      }
      RemovePatternsFixed(s, ps[1..]);
    }
  }

  /** Text in which no suspicious pattern occurs is displayed merely trimmed. */
  lemma DisplayKeepsPlainText(s: string)
    requires !ContainsSuspiciousPatterns(s)
    ensures SanitizeForDisplay(s) == Trim(s)
  {
    if s != [] {
      forall k | 0 <= k < |SUSPICIOUS_PATTERNS| ensures ReplaceAll(SUSPICIOUS_PATTERNS[k], s) == s {
        ReplaceAllFixpoint(SUSPICIOUS_PATTERNS[k], s);
      }
      RemovePatternsFixed(s, SUSPICIOUS_PATTERNS);
    }
  }

  /**
   * A global replace keeps the text before the first position where a match
   * can begin, drops a match found there, and carries on after it.
   */
  lemma ReplaceAllRemovesMatch(p: Pattern, s: string, n: nat, len: nat)
    requires n < |s| && MatchAt(p, s[n..]) == Some(len)
    requires forall i :: 0 <= i < n ==> !CanStart(p, s[i])
    ensures n + len <= |s| && ReplaceAll(p, s) == s[..n] + ReplaceAll(p, s[n + len..])
  {
    NoMatchInUnstartable(p, s, n);
    ReplaceRemovesMatch(Matches(p), s, n, len);
  }

  /** The output of a replacement up to the first match, for any matcher. */
  lemma ReplaceRemovesMatch(m: Matcher, s: string, n: nat, len: nat)
    requires Advances(m) && n < |s| && m(s[n..]) == Some(len)
    requires forall i :: 0 <= i < n ==> m(s[i..]).None?
    ensures n + len <= |s| && Replace(m, s) == s[..n] + Replace(m, s[n + len..])
  {
    ReplaceKeepsPrefix(m, s, n);
    ReplaceMatched(m, s[n..], len);
    assert s[n..][len..] == s[n + len..];
  }

  /** With no match before position `n`, the first `n` characters are kept. */
  lemma ReplaceKeepsPrefix(m: Matcher, s: string, n: nat)
    requires Advances(m) && n <= |s|
    requires forall i :: 0 <= i < n ==> m(s[i..]).None?
    ensures Replace(m, s) == s[..n] + Replace(m, s[n..])
  {
    ReplaceKeepsRange(m, s, 0, n);
    assert s[0..] == s && s[0..n] == s[..n];
  }


  /* ---------------------------------------------------------------------- */
  /* sanitizeInput and validateAndSanitizeMessage                            */
  /* ---------------------------------------------------------------------- */

  /** Strip tags, escape what is left, trim; the empty string stays empty. */
  function SanitizeInput(s: string): (r: string)
    ensures s == [] ==> r == []
    ensures '<' !in r && '>' !in r
  {
    if s == [] then []
    else
      var r := Trim(EscapeHtml(StripHtml(s)));
      assert '<' !in r && '>' !in r by {
        if '<' in r { TrimChars(EscapeHtml(StripHtml(s)), '<'); }
        if '>' in r { TrimChars(EscapeHtml(StripHtml(s)), '>'); }
      }
      r
  }

  /**
   * `null` for empty input, for any suspicious pattern or dangerous scheme,
   * and for input that sanitizes to nothing; the sanitized text otherwise.
   */
  function ValidateAndSanitizeMessage(m: string): (r: Option<string>)
    ensures r.None? <==>
      m == [] || ContainsSuspiciousPatterns(m) || ContainsDangerousProtocols(m) || SanitizeInput(m) == []
    ensures r.Some? ==> r.value == Trim(EscapeHtml(StripHtml(m)))
    ensures r.Some? ==> r.value != [] && '<' !in r.value && '>' !in r.value
  {
    if m == [] then None
    else if ContainsSuspiciousPatterns(m) then None
    else if ContainsDangerousProtocols(m) then None
    else
      var sanitized := SanitizeInput(m);
      if sanitized == [] then None else Some(sanitized)
  }

  /** Input with an event-handler assignment is rejected. */
  lemma EventHandlerRejected(s: string, i: nat, k: nat, m: nat)
    requires i + 2 < k <= m < |s|
    requires Lower(s[i..i + 2]) == "on"
    requires forall x :: i + 2 <= x < k ==> IsWordChar(s[x])
    requires forall x :: k <= x < m ==> IsJsSpace(s[x])
    requires s[m] == '='
    ensures ValidateAndSanitizeMessage(s) == None
  {
    EventHandlerDetected(s, i, k, m);
  }

  /** Input with a dangerous scheme, in any letter case, is rejected. */
  lemma DangerousProtocolRejected(s: string, k: nat, i: nat)
    requires k < |DANGEROUS_PROTOCOLS|
    requires i + |DANGEROUS_PROTOCOLS[k]| <= |s|
    requires Lower(s[i..i + |DANGEROUS_PROTOCOLS[k]|]) == DANGEROUS_PROTOCOLS[k]
    ensures ValidateAndSanitizeMessage(s) == None
  {
    DangerousProtocolDetected(s, k, i);
  }

  /** A `<script` element closed later by `</script>`, in any letter case, is rejected. */
  lemma ScriptElementRejected(s: string, i: nat, j: nat)
    requires i + 7 <= j <= |s|
    requires CiStartsWith(s[i..], "<script") && (i + 7 == |s| || !IsWordChar(s[i + 7]))
    requires CiStartsWith(s[j..], "</script>")
    ensures ValidateAndSanitizeMessage(s) == None
  {
    ElementDetected(ScriptElement, "script", s, i, j);
    assert SUSPICIOUS_PATTERNS[0] == ScriptElement;
  }

  /** An `<iframe` element closed later by `</iframe>`, in any letter case, is rejected. */
  lemma IframeElementRejected(s: string, i: nat, j: nat)
    requires i + 7 <= j <= |s|
    requires CiStartsWith(s[i..], "<iframe") && (i + 7 == |s| || !IsWordChar(s[i + 7]))
    requires CiStartsWith(s[j..], "</iframe>")
    ensures ValidateAndSanitizeMessage(s) == None
  {
    ElementDetected(IframeElement, "iframe", s, i, j);
    assert SUSPICIOUS_PATTERNS[1] == IframeElement;
  }

  /** An `<object` element closed later by `</object>`, in any letter case, is rejected. */
  lemma ObjectElementRejected(s: string, i: nat, j: nat)
    requires i + 7 <= j <= |s|
    requires CiStartsWith(s[i..], "<object") && (i + 7 == |s| || !IsWordChar(s[i + 7]))
    requires CiStartsWith(s[j..], "</object>")
    ensures ValidateAndSanitizeMessage(s) == None
  {
    ElementDetected(ObjectElement, "object", s, i, j);
    assert SUSPICIOUS_PATTERNS[4] == ObjectElement;
  }

  /**
   * `<embed` (any case) on a word boundary, with a `>` after it and no `<`
   * in between, is rejected.
   */
  lemma EmbedElementRejected(s: string, i: nat, g: nat)
    requires i + 6 <= g < |s| && s[g] == '>'
    requires CiStartsWith(s[i..], "<embed") && !IsWordChar(s[i + 6])
    requires forall x :: i + 6 <= x < g ==> s[x] != '<'
    ensures ValidateAndSanitizeMessage(s) == None
  {
    var t := s[i..];
    var q := NextIndexOf(t, 6, '<');
    assert t[g - i] == '>';
    assert LastIndexIn(t, 6, q, '>').Some?;
    AnyMatchAt(EmbedElement, s, i);
    assert SUSPICIOUS_PATTERNS[5] == EmbedElement;
  }

  /** A pattern whose last character does not occur in a text is not included in it. */
  lemma {:induction false} MissingLastCharNotContained(t: string, pat: string)
    requires pat != [] && pat[|pat| - 1] !in t
    ensures !Contains(t, pat)
    decreases |t|
  {
    if |pat| <= |t| {
      assert t[|pat| - 1] in t;
    }
    if t != [] {
      MissingLastCharNotContained(t[1..], pat);
    }
  }

  /** `<script>hi` has no closing tag, so the script pattern matches nowhere in it. */
  lemma UnclosedScriptUnmatched(s: string)
    requires s == "<script>hi"
    ensures !AnyMatch(ScriptElement, s)
  {
    forall j | 0 <= j <= |s| ensures !CiStartsWith(s[j..], "</script>") {
      if j == 0 {
        assert Lower(s[..9])[1] == 's';
      } else if j == 1 {
        assert Lower(s[1..][..9])[0] == 's';
      }
    }
    UnclosedElementUnmatched(ScriptElement, "script", s);
  }

  /** No other pattern matches in `<script>hi`: after its first character none can even begin. */
  lemma UnclosedScriptOthersUnmatched(s: string, k: nat)
    requires s == "<script>hi" && 1 <= k < |SUSPICIOUS_PATTERNS|
    ensures !AnyMatch(SUSPICIOUS_PATTERNS[k], s)
  {
    var p := SUSPICIOUS_PATTERNS[k];
    var rest := s[1..];
    assert forall i :: 0 <= i < |rest| ==> !CanStart(p, rest[i]);
    ReplaceAllUnstartable(p, rest);
    ReplaceAllFixpoint(p, rest);
    NoMatchAtFirst(p, s);
  }

  /** At the `<` of `<script>hi` only the script pattern could begin a match. */
  lemma NoMatchAtFirst(p: Pattern, s: string)
    requires s == "<script>hi" && p != ScriptElement
    ensures MatchAt(p, s).None?
  {
    if p == IframeElement || p == ObjectElement {
      assert Lower(s[..7])[1] == 's';
    } else if p == EmbedElement {
      assert Lower(s[..6])[1] == 's';
    } else {
      NoMatchAtUnstartable(p, s);
    }
  }

  /** `<script>hi` holds no `:`, so no dangerous scheme. */
  lemma UnclosedScriptNotDangerous(s: string)
    requires s == "<script>hi"
    ensures !ContainsDangerousProtocols(s)
  {
    assert ':' !in Lower(s);
    forall k | 0 <= k < |DANGEROUS_PROTOCOLS| ensures !Contains(Lower(s), DANGEROUS_PROTOCOLS[k]) {
      MissingLastCharNotContained(Lower(s), DANGEROUS_PROTOCOLS[k]);
    }
  }

  /** `IndexOf` finds the first occurrence. */
  lemma {:induction false} IndexOfAt(t: string, c: char, k: nat)
    requires k < |t| && t[k] == c && c !in t[..k]
    ensures IndexOf(t, c) == k
    decreases k
  {
    if k > 0 {
      assert t[0] == t[..k][0];
      assert t[1..][..k - 1] == t[..k][1..];
      IndexOfAt(t[1..], c, k - 1);
    }
  }

  /** Sanitizing `<script>hi` strips the opening tag and leaves `hi`. */
  lemma UnclosedScriptStripped(s: string)
    requires s == "<script>hi"
    ensures Trim(EscapeHtml(StripHtml(s))) == "hi"
  {
    var t, hi := s[1..], s[8..];
    assert t[6] == '>' && t[..6] == "script";
    IndexOfAt(t, '>', 6);
    assert StripHtml(s) == StripHtml(hi);
    assert hi == "hi";
    NoOpenIsTagFree(hi);
    StripHtmlKeepsTagFree(hi);
    EscapeKeepsPlain(hi);
    TrimUnpadded(hi);
  }

  /** An unclosed `<script>` passes the filter: `<script>hi` is accepted and becomes `hi`. */
  lemma UnclosedScriptAccepted(s: string)
    requires s == "<script>hi"
    ensures ValidateAndSanitizeMessage(s) == Some("hi")
  {
    UnclosedScriptNotSuspicious(s);
    UnclosedScriptNotDangerous(s);
    UnclosedScriptStripped(s);
    assert SanitizeInput(s) == "hi";
  }

  /** No suspicious pattern occurs in `<script>hi`. */
  lemma UnclosedScriptNotSuspicious(s: string)
    requires s == "<script>hi"
    ensures !ContainsSuspiciousPatterns(s)
  {
    UnclosedScriptUnmatched(s);
    forall k | 1 <= k < |SUSPICIOUS_PATTERNS| ensures !AnyMatch(SUSPICIOUS_PATTERNS[k], s) {
      UnclosedScriptOthersUnmatched(s, k);
    }
  }

  /** Text without `<` holds no tag. */
  lemma {:induction false} NoOpenIsTagFree(s: string)
    requires '<' !in s
    ensures TagFree(s)
    decreases |s|
  {
    if s != [] {
      assert '<' !in s[1..];
      NoOpenIsTagFree(s[1..]);
    }
  }

  /** On text without `&`, `<`, `>` or U+00A0, sanitizing twice is sanitizing once. */
  lemma SanitizeIdempotentOnPlainText(s: string)
    requires Plain(s)
    ensures SanitizeInput(SanitizeInput(s)) == SanitizeInput(s)
  {
    PlainSanitizeIsTrim(s);
    TrimKeepsPlain(s);
    PlainSanitizeIsTrim(Trim(s));
    TrimIdempotent(s);
  }

  /** Plain text is only trimmed. */
  lemma PlainSanitizeIsTrim(s: string)
    requires Plain(s)
    ensures SanitizeInput(s) == Trim(s)
  {
    if s != [] {
      NoOpenIsTagFree(s);
      StripHtmlKeepsTagFree(s);
      EscapeKeepsPlain(s);
    }
  }

  /** Trimming plain text leaves it plain. */
  lemma TrimKeepsPlain(s: string)
    requires Plain(s)
    ensures Plain(Trim(s))
  {
    var t := Trim(s);
    TrimIsSlice(s);
    forall k | 0 <= k < |t| ensures !IsEscaped(t[k]) {
      assert t[k] == s[|s| - |TrimStart(s)| + k];
    }
  }


  /** Escaping `a + b` starts with the escape of the first character of `a`. */
  lemma EscapeHtmlCons(a: string, b: string)
    requires a != []
    ensures EscapeHtml(a + b) == EscapeChar(a[0]) + EscapeHtml(a[1..] + b)
  {
    assert (a + b)[0] == a[0] && (a + b)[1..] == a[1..] + b;
  }

  /** `EscapeHtml` distributes over concatenation. */
  lemma {:induction false} EscapeHtmlAppend(a: string, b: string)
    ensures EscapeHtml(a + b) == EscapeHtml(a) + EscapeHtml(b)
    decreases |a|
  {
    if a == [] {
      assert a + b == b;
    } else {
      EscapeHtmlAppend(a[1..], b);
      EscapeHtmlCons(a, b);
    }
  }

  /** Escaping keeps every `&` and adds four characters for each escaped one. */
  lemma {:induction false} EscapeAmpersandGrows(s: string)
    requires '&' in s
    ensures '&' in EscapeHtml(s)
    ensures |EscapeHtml(s)| > |s|
    decreases |s|
  {
    if s[0] == '&' {
      assert EscapeHtml(s)[0] == '&';
    } else {
      EscapeAmpersandGrows(s[1..]);
      assert EscapeHtml(s) == EscapeChar(s[0]) + EscapeHtml(s[1..]);
    }
  }

  /** Escaping a string that begins and ends with a non-space character keeps that property. */
  lemma EscapeUnpadded(t: string)
    requires Unpadded(t)
    ensures Unpadded(EscapeHtml(t))
  {
    EscapeFirst(t);
    EscapeLast(t);
  }

  /** The escaped text begins with the escape of the first character. */
  lemma EscapeFirst(t: string)
    requires t != []
    ensures var e, f := EscapeHtml(t), EscapeChar(t[0]); e != [] && e[0] == f[0]
  {
    assert EscapeHtml(t) == EscapeChar(t[0]) + EscapeHtml(t[1..]);
  }

  /** The escaped text ends with the escape of the last character. */
  lemma EscapeLast(t: string)
    requires t != []
    ensures var e, l := EscapeHtml(t), EscapeChar(t[|t| - 1]); e != [] && e[|e| - 1] == l[|l| - 1]
  {
    var n := |t| - 1;
    assert t == t[..n] + [t[n]];
    EscapeHtmlAppend(t[..n], [t[n]]);
    EscapeSingle(t[n]);
    LastOfAppend(EscapeHtml(t[..n]), EscapeChar(t[n]));
  }

  /** Escaping one character is `EscapeChar`. */
  lemma EscapeSingle(c: char)
    ensures EscapeHtml([c]) == EscapeChar(c)
  {
    assert EscapeHtml([c]) == EscapeChar(c) + EscapeHtml([]);
  }

  /** The last element of a concatenation with a non-empty right side. */
  lemma LastOfAppend(x: string, y: string)
    requires y != []
    ensures (x + y)[|x + y| - 1] == y[|y| - 1]
  {
  }


  /** Sanitizing text without `<` is escaping and trimming it. */
  lemma SanitizeNoOpen(s: string)
    requires s != [] && '<' !in s
    ensures SanitizeInput(s) == Trim(EscapeHtml(s))
  {
    NoOpenIsTagFree(s);
    StripHtmlKeepsTagFree(s);
  }

  /**
   * Sanitizing is not idempotent once the text holds an `&` (and no tag
   * opener): the second pass escapes the first pass's `&amp;` again, so the
   * result grows.
   */
  lemma SanitizeEscapesTwice(s: string)
    requires '<' !in s && '&' in s
    ensures |SanitizeInput(SanitizeInput(s))| > |SanitizeInput(s)|
  {
    var r := SanitizeInput(s);
    SanitizeNoOpen(s);
    EscapeKeepsAmpersand(s, EscapeHtml(s), r);
    SanitizeGrowsUnpadded(r);
  }

  /** The `&` of the input survives escaping and trimming, which leave no white space at the ends. */
  lemma EscapeKeepsAmpersand(s: string, e: string, r: string)
    requires '&' in s && e == EscapeHtml(s) && r == Trim(e)
    ensures '&' in r && Unpadded(r)
  {
    EscapeAmpersandGrows(s);
    TrimKeepsAmpersand(e, r);
  }

  /** Trimming keeps an `&` and leaves no white space at the ends. */
  lemma TrimKeepsAmpersand(e: string, r: string)
    requires '&' in e && r == Trim(e)
    ensures '&' in r && Unpadded(r)
  {
    TrimKeepsNonSpace(e, '&');
    TrimEnds(e);
  }

  /** Sanitizing unpadded text holding `&` and no `<` lengthens it. */
  lemma SanitizeGrowsUnpadded(r: string)
    requires '<' !in r && '&' in r && Unpadded(r)
    ensures |SanitizeInput(r)| > |r|
  {
    SanitizeNoOpen(r);
    EscapeUnpaddedGrows(r, EscapeHtml(r), SanitizeInput(r));
  }

  /** Escaping unpadded text holding `&` lengthens it, and trimming takes nothing off. */
  lemma EscapeUnpaddedGrows(r: string, e: string, out: string)
    requires '&' in r && Unpadded(r) && e == EscapeHtml(r) && out == Trim(e)
    ensures |out| > |r|
  {
    EscapeUnpadded(r);
    TrimUnpadded(e);
    EscapeAmpersandGrows(r);
  }
}
