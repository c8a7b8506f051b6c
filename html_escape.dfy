/**
 * `_esc` of the productCart component: HTML escaping by three global
 * replacements, '&' first, then '<', then '>'.
 */
module HtmlEscape {
  import opened Wrappers

  /** `s.replace(/c/g, rep)`: every occurrence of `c` replaced by `rep`, so a
      character of the result is one of `s` other than `c`, or one of `rep`. */
  function ReplaceAll(s: string, c: char, rep: string): (r: string)
    ensures forall x :: x in r ==> (x in s && x != c) || x in rep
    ensures s == [c] ==> r == rep
  {
    if s == [] then []
    else (if s[0] == c then rep else [s[0]]) + ReplaceAll(s[1..], c, rep)
  }

  /** `_esc`: a missing value becomes "", then '&', '<' and '>' are replaced in
      that order; the output holds no angle bracket. */
  function Esc(str: Option<string>): (r: string)
    ensures str.None? ==> r == ""
    ensures '<' !in r && '>' !in r
  {
    var s := str.GetOr("");
    var amp := ReplaceAll(s, '&', "&amp;");
    var lt := ReplaceAll(amp, '<', "&lt;");
    assert '<' !in "&gt;" && '<' !in lt;
    ReplaceAll(lt, '>', "&gt;")
  }

  /** The entity each character becomes. */
  function EscapeChar(c: char): string {
    if c == '&' then "&amp;"
    else if c == '<' then "&lt;"
    else if c == '>' then "&gt;"
    else [c]
  }

  /** Escaping in one pass, character by character. */
  function EscapeEach(s: string): string {
    if s == [] then [] else EscapeChar(s[0]) + EscapeEach(s[1..])
  }

  /** Decoding of the three entities, as a browser reads the escaped text. */
  function Unescape(s: string): string
    decreases |s|
  {
    if |s| >= 5 && s[..5] == "&amp;" then "&" + Unescape(s[5..])
    else if |s| >= 4 && s[..4] == "&lt;" then "<" + Unescape(s[4..])
    else if |s| >= 4 && s[..4] == "&gt;" then ">" + Unescape(s[4..])
    else if s == [] then []
    else [s[0]] + Unescape(s[1..])
  }

  /** A replacement works piece by piece. */
  lemma {:induction false} ReplaceAllConcat(a: string, b: string, c: char, rep: string)
    ensures ReplaceAll(a + b, c, rep) == ReplaceAll(a, c, rep) + ReplaceAll(b, c, rep)
  {
    if a == [] {
      assert a + b == b;
    } else {
      assert (a + b)[1..] == a[1..] + b;
      ReplaceAllConcat(a[1..], b, c, rep);
    }
  }

  /** Replacing a character that does not occur changes nothing. */
  lemma {:induction false} ReplaceAbsent(s: string, c: char, rep: string)
    requires c !in s
    ensures ReplaceAll(s, c, rep) == s
  {
    if s != [] {
      assert c !in s[1..];
      ReplaceAbsent(s[1..], c, rep);
    }
  }

  /** The three passes on one character give exactly its entity: '&' is
      replaced first, so the '&' of "&lt;" and "&gt;" is never escaped again. */
  lemma EscOneChar(c: char)
    ensures Esc(Some([c])) == EscapeChar(c)
  {
    var amp := ReplaceAll([c], '&', "&amp;");
    assert amp == (if c == '&' then "&amp;" else [c]) by {
      assert [c][1..] == [];
      assert ReplaceAll([c][1..], '&', "&amp;") == [];
    }
    var lt := ReplaceAll(amp, '<', "&lt;");
    if c == '<' {
      assert lt == "&lt;" by { assert amp[1..] == []; }
      ReplaceAbsent(lt, '>', "&gt;");
    } else if c == '&' {
      ReplaceAbsent(amp, '<', "&lt;");
      ReplaceAbsent(amp, '>', "&gt;");
    } else {
      ReplaceAbsent(amp, '<', "&lt;");
      assert ReplaceAll(lt, '>', "&gt;") == EscapeChar(c) by {
        assert lt[1..] == [];
      }
    }
  }

  /** `_esc` works piece by piece, so every character keeps its place. */
  lemma EscConcat(a: string, b: string)
    ensures Esc(Some(a + b)) == Esc(Some(a)) + Esc(Some(b))
  {
    ReplaceAllConcat(a, b, '&', "&amp;");
    var a1, b1 := ReplaceAll(a, '&', "&amp;"), ReplaceAll(b, '&', "&amp;");
    ReplaceAllConcat(a1, b1, '<', "&lt;");
    var a2, b2 := ReplaceAll(a1, '<', "&lt;"), ReplaceAll(b1, '<', "&lt;");
    ReplaceAllConcat(a2, b2, '>', "&gt;");
  }

  /** The three passes are the same as escaping each character once. */
  lemma {:induction false} EscIsSinglePass(s: string)
    ensures Esc(Some(s)) == EscapeEach(s)
  {
    if s != [] {
      assert s == [s[0]] + s[1..];
      EscConcat([s[0]], s[1..]);
      EscOneChar(s[0]);
      EscIsSinglePass(s[1..]);
    }
  }

  /** Text without '&', '<' and '>' comes out unchanged; a missing value gives "". */
  lemma EscPlainText(s: string)
    requires '&' !in s && '<' !in s && '>' !in s
    ensures Esc(Some(s)) == s && Esc(None) == ""
  {
    ReplaceAbsent(s, '&', "&amp;");
    ReplaceAbsent(s, '<', "&lt;");
    ReplaceAbsent(s, '>', "&gt;");
  }

  /** Decoding reads "&amp;" back as '&'. */
  lemma UnescapeAmp(rest: string)
    ensures Unescape("&amp;" + rest) == "&" + Unescape(rest)
  {
    var t := "&amp;" + rest;
    assert t[..5] == "&amp;" && t[5..] == rest;
  }

  /** Decoding reads "&lt;" back as '<'. */
  lemma UnescapeLt(rest: string)
    ensures Unescape("&lt;" + rest) == "<" + Unescape(rest)
  {
    var t := "&lt;" + rest;
    assert t[1] == 'l';
    assert t[..4] == "&lt;" && t[4..] == rest;
  }

  /** Decoding reads "&gt;" back as '>'. */
  lemma UnescapeGt(rest: string)
    ensures Unescape("&gt;" + rest) == ">" + Unescape(rest)
  {
    var t := "&gt;" + rest;
    assert t[1] == 'g';
    assert t[..4] == "&gt;" && t[4..] == rest;
  }

  /** Decoding keeps a character other than '&' as it is. */
  lemma UnescapePlain(c: char, rest: string)
    requires c != '&'
    ensures Unescape([c] + rest) == [c] + Unescape(rest)
  {
    var t := [c] + rest;
    assert t[0] == c && t[1..] == rest;
  }

  /** Decoding reads one escaped character back and goes on with the rest. */
  lemma UnescapeEscapeChar(c: char, rest: string)
    ensures Unescape(EscapeChar(c) + rest) == [c] + Unescape(rest)
  {
    if c == '&' {
      UnescapeAmp(rest);
    } else if c == '<' {
      UnescapeLt(rest);
    } else if c == '>' {
      UnescapeGt(rest);
    } else {
      UnescapePlain(c, rest);
    }
  }

  /** Decoding what `_esc` produced gives back the original text. */
  lemma {:induction false} UnescapeEscapeEach(s: string)
    ensures Unescape(EscapeEach(s)) == s
  {
    if s != [] {
      UnescapeEscapeEach(s[1..]);
      UnescapeEscapeChar(s[0], EscapeEach(s[1..]));
      assert s == [s[0]] + s[1..];
    }
  }

  /** `_esc` loses nothing: the escaped text decodes to the input. */
  lemma EscRoundTrip(s: string)
    ensures Unescape(Esc(Some(s))) == s
  {
    EscIsSinglePass(s);
    UnescapeEscapeEach(s);
  }
}
