/**
 * XML character escaping (`escape` and `escape_to_string` in `src/util.rs`):
 * the five markup-significant characters become entity references and every
 * other character is copied unchanged.
 */
module Escaping {

  predicate IsMarkup(c: char)
  {
    c == '"' || c == '\'' || c == '<' || c == '>' || c == '&'
  }

  function EscapeChar(c: char): (r: string)
    ensures IsMarkup(c) <==> r != [c]
    ensures !IsMarkup(c) ==> r == [c]
  {
    match c
    case '"' => "&quot;"
    case '\'' => "&apos;"
    case '<' => "&lt;"
    case '>' => "&gt;"
    case '&' => "&amp;"
    case _ => [c]
  }

  /** The entity reference each markup character becomes. */
  lemma EntityReferences()
    ensures EscapeChar('"') == "&quot;" && EscapeChar('\'') == "&apos;"
    ensures EscapeChar('<') == "&lt;" && EscapeChar('>') == "&gt;" && EscapeChar('&') == "&amp;"
  {
  }

  /** The escaped form of `s`, character by character. */
  function Escape(s: string): string
    decreases |s|
  {
    if s == [] then [] else Escape(s[..|s| - 1]) + EscapeChar(s[|s| - 1])
  }

  /** `escape_to_string`: builds the escaped copy in one pass over `s`. */
  method EscapeToString(s: string) returns (r: string)
    ensures r == Escape(s)
  {
    r := "";
    var i := 0;
    while i < |s|
      invariant 0 <= i <= |s|
      invariant r == Escape(s[..i])
    {
      assert s[..i + 1][..i] == s[..i];
      r := r + EscapeChar(s[i]);
      i := i + 1;
    }
    assert s[..|s|] == s;
  }

  /** Escaping is applied piecewise: it distributes over concatenation. */
  lemma {:induction false} EscapeAppend(a: string, b: string)
    ensures Escape(a + b) == Escape(a) + Escape(b)
    decreases |b|
  {
    if b == [] {
      assert a + b == a;
    } else {
      var init, last := b[..|b| - 1], b[|b| - 1];
      assert (a + b)[..|a + b| - 1] == a + init;
      assert (a + b)[|a + b| - 1] == last;
      assert Escape(a + b) == Escape(a + init) + EscapeChar(last);
      assert Escape(b) == Escape(init) + EscapeChar(last);
      EscapeAppend(a, init);
      assert Escape(a) + Escape(init) + EscapeChar(last) == Escape(a) + (Escape(init) + EscapeChar(last));
    }
  }

  lemma EscapeCons(c: char, s: string)
    ensures Escape([c] + s) == EscapeChar(c) + Escape(s)
  {
    EscapeAppend([c], s);
    assert Escape([c]) == Escape([]) + EscapeChar(c);
  }

  /** Text without markup characters is written unchanged. */
  lemma {:induction false} EscapeIdentity(s: string)
    requires forall i :: 0 <= i < |s| ==> !IsMarkup(s[i])
    ensures Escape(s) == s
    decreases |s|
  {
    if s != [] {
      EscapeIdentity(s[..|s| - 1]);
      assert s[..|s| - 1] + [s[|s| - 1]] == s;
    }
  }

  /** The escaped text contains no raw quote, apostrophe or angle bracket. */
  lemma {:induction false} EscapeHasNoRawMarkup(s: string)
    ensures forall i :: 0 <= i < |Escape(s)| ==> IsMarkup(Escape(s)[i]) ==> Escape(s)[i] == '&'
    decreases |s|
  {
    if s != [] {
      EscapeHasNoRawMarkup(s[..|s| - 1]);
    }
  }

  predicate StartsWith(t: string, p: string)
  {
    |p| <= |t| && t[..|p|] == p
  }

  /** Reads the five entity references back; any other character is copied. */
  function Unescape(t: string): string
    decreases |t|
  {
    if t == [] then []
    else if StartsWith(t, "&quot;") then "\"" + Unescape(t[6..])
    else if StartsWith(t, "&apos;") then "'" + Unescape(t[6..])
    else if StartsWith(t, "&lt;") then "<" + Unescape(t[4..])
    else if StartsWith(t, "&gt;") then ">" + Unescape(t[4..])
    else if StartsWith(t, "&amp;") then "&" + Unescape(t[5..])
    else [t[0]] + Unescape(t[1..])
  }

  lemma UnescapeQuot(t: string)
    ensures Unescape("&quot;" + t) == "\"" + Unescape(t)
  {
    var u := "&quot;" + t;
    assert u[..6] == "&quot;" && u[6..] == t;
  }

  lemma UnescapeApos(t: string)
    ensures Unescape("&apos;" + t) == "'" + Unescape(t)
  {
    var u := "&apos;" + t;
    assert u[..6] == "&apos;" && u[6..] == t;
    assert u[1] == 'a';
  }

  lemma UnescapeLt(t: string)
    ensures Unescape("&lt;" + t) == "<" + Unescape(t)
  {
    var u := "&lt;" + t;
    assert u[..4] == "&lt;" && u[4..] == t;
    assert !StartsWith(u, "&quot;") && !StartsWith(u, "&apos;") by { assert u[1] == 'l'; }
  }

  lemma UnescapeGt(t: string)
    ensures Unescape("&gt;" + t) == ">" + Unescape(t)
  {
    var u := "&gt;" + t;
    assert u[..4] == "&gt;" && u[4..] == t;
    assert !StartsWith(u, "&quot;") && !StartsWith(u, "&apos;") && !StartsWith(u, "&lt;") by { assert u[1] == 'g'; }
  }

  lemma UnescapeAmp(t: string)
    ensures Unescape("&amp;" + t) == "&" + Unescape(t)
  {
    var u := "&amp;" + t;
    assert u[..5] == "&amp;" && u[5..] == t;
    assert !StartsWith(u, "&quot;") by { assert u[1] == 'a'; }
    assert !StartsWith(u, "&apos;") by { assert u[2] == 'm'; }
    assert !StartsWith(u, "&lt;") && !StartsWith(u, "&gt;") by { assert u[1] == 'a'; }
  }

  lemma UnescapePlain(c: char, t: string)
    requires c != '&'
    ensures Unescape([c] + t) == [c] + Unescape(t)
  {
    var u := [c] + t;
    assert u[0] == c && u[1..] == t;
  }

  lemma UnescapeEscapedChar(c: char, t: string)
    ensures Unescape(EscapeChar(c) + t) == [c] + Unescape(t)
  {
    match c
    case '"' => UnescapeQuot(t);
    case '\'' => UnescapeApos(t);
    case '<' => UnescapeLt(t);
    case '>' => UnescapeGt(t);
    case '&' => UnescapeAmp(t);
    case _ => UnescapePlain(c, t);
  }

  /** Escaping loses nothing: unescaping gives the original text back. */
  lemma {:induction false} UnescapeEscape(s: string)
    ensures Unescape(Escape(s)) == s
    decreases |s|
  {
    if s != [] {
      EscapeCons(s[0], s[1..]);
      assert [s[0]] + s[1..] == s;
      UnescapeEscapedChar(s[0], Escape(s[1..]));
      UnescapeEscape(s[1..]);
    }
  }

  lemma TextExample()
    ensures Escape("One & two") == "One &amp; two"
  {
    AmpTwo();
    assert "One & two" == "One " + "& two";
    EscapeAppend("One ", "& two");
    EscapeIdentity("One ");
    assert "One " + "&amp; two" == "One &amp; two";
  }

  lemma AmpTwo()
    ensures Escape("& two") == "&amp; two"
  {
    assert "& two" == "&" + " two";
    EscapeAppend("&", " two");
    assert Escape("&") == Escape([]) + EscapeChar('&');
    EscapeIdentity(" two");
    assert "&amp;" + " two" == "&amp; two";
  }
}
