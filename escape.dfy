/**
 * `escapeHtml`: five global replacements applied one after the other, the
 * ampersand first. The reference definition escapes one character at a time;
 * `Unescape` decodes the five entities again.
 */
module HtmlEscape {

  /** `s.replace(/target/g, replacement)`: every occurrence of one character replaced. */
  function ReplaceAll(s: string, target: char, replacement: string): (r: string)
    ensures target !in replacement ==> target !in r
    ensures target !in s ==> r == s
  {
    if s == [] then []
    else (if s[0] == target then replacement else [s[0]]) + ReplaceAll(s[1..], target, replacement)
  }

  lemma {:induction false} ReplaceAllAppend(a: string, b: string, target: char, replacement: string)
    ensures ReplaceAll(a + b, target, replacement) == ReplaceAll(a, target, replacement) + ReplaceAll(b, target, replacement)
  {
    if a != [] {
      assert (a + b)[0] == a[0] && (a + b)[1..] == a[1..] + b;
      ReplaceAllAppend(a[1..], b, target, replacement);
    } else {
      assert a + b == b;
    }
  }

  /** The escaper as the page writes it: `&`, `<`, `>`, `"`, `'` in that order. */
  function EscapeHtml(unsafe: string): string
  {
    var amp := ReplaceAll(unsafe, '&', "&amp;");
    var lt := ReplaceAll(amp, '<', "&lt;");
    var gt := ReplaceAll(lt, '>', "&gt;");
    var quot := ReplaceAll(gt, '"', "&quot;");
    ReplaceAll(quot, '\'', "&#039;")
  }

  /** The entity for one character; every other character stands for itself. */
  function EscapeChar(c: char): string
  {
    match c
    case '&' => "&amp;"
    case '<' => "&lt;"
    case '>' => "&gt;"
    case '"' => "&quot;"
    case '\'' => "&#039;"
    case _ => [c]
  }

  /** Reference escaper: each character replaced by its entity, in place. */
  function EscapeEach(s: string): string
  {
    if s == [] then [] else EscapeChar(s[0]) + EscapeEach(s[1..])
  }

  /** Text that cannot open a tag, an attribute value or a quoted string. */
  predicate Inert(t: string)
  {
    forall i :: 0 <= i < |t| ==> t[i] != '<' && t[i] != '>' && t[i] != '"' && t[i] != '\''
  }

  /** Decoder for the five entities the escaper produces. */
  function Unescape(s: string): string
  {
    if s == [] then []
    else if |s| >= 5 && s[..5] == "&amp;" then "&" + Unescape(s[5..])
    else if |s| >= 4 && s[..4] == "&lt;" then "<" + Unescape(s[4..])
    else if |s| >= 4 && s[..4] == "&gt;" then ">" + Unescape(s[4..])
    else if |s| >= 6 && s[..6] == "&quot;" then "\"" + Unescape(s[6..])
    else if |s| >= 6 && s[..6] == "&#039;" then "'" + Unescape(s[6..])
    else [s[0]] + Unescape(s[1..])
  }

  lemma ReplaceAllSingle(c: char, target: char, replacement: string)
    ensures ReplaceAll([c], target, replacement) == if c == target then replacement else [c]
  {
    assert [c][1..] == [];
  }

  /** On one character the chain gives that character's entity. */
  lemma EscapeSingle(c: char)
    ensures EscapeHtml([c]) == EscapeChar(c)
  {
    ReplaceAllSingle(c, '&', "&amp;");
    if c == '&' {
      assert '<' !in "&amp;" && '>' !in "&amp;" && '"' !in "&amp;" && '\'' !in "&amp;";
    } else {
      ReplaceAllSingle(c, '<', "&lt;");
      if c == '<' {
        assert '>' !in "&lt;" && '"' !in "&lt;" && '\'' !in "&lt;";
      } else {
        ReplaceAllSingle(c, '>', "&gt;");
        if c == '>' {
          assert '"' !in "&gt;" && '\'' !in "&gt;";
        } else {
          ReplaceAllSingle(c, '"', "&quot;");
          if c == '"' {
            assert '\'' !in "&quot;";
          } else {
            ReplaceAllSingle(c, '\'', "&#039;");
          }
        }
      }
    }
  }

  lemma EscapeAppend(a: string, b: string)
    ensures EscapeHtml(a + b) == EscapeHtml(a) + EscapeHtml(b)
  {
    var amp := ReplaceAll(a + b, '&', "&amp;");
    ReplaceAllAppend(a, b, '&', "&amp;");
    var a1, b1 := ReplaceAll(a, '&', "&amp;"), ReplaceAll(b, '&', "&amp;");
    ReplaceAllAppend(a1, b1, '<', "&lt;");
    var a2, b2 := ReplaceAll(a1, '<', "&lt;"), ReplaceAll(b1, '<', "&lt;");
    ReplaceAllAppend(a2, b2, '>', "&gt;");
    var a3, b3 := ReplaceAll(a2, '>', "&gt;"), ReplaceAll(b2, '>', "&gt;");
    ReplaceAllAppend(a3, b3, '"', "&quot;");
    var a4, b4 := ReplaceAll(a3, '"', "&quot;"), ReplaceAll(b3, '"', "&quot;");
    ReplaceAllAppend(a4, b4, '\'', "&#039;");
  }

  /**
   * The replacement chain escapes each character independently: no later
   * replacement touches an entity an earlier one produced.
   */
  lemma {:induction false} EscapeHtmlIsPerChar(s: string)
    ensures EscapeHtml(s) == EscapeEach(s)
  {
    if s != [] {
      assert s == [s[0]] + s[1..];
      EscapeAppend([s[0]], s[1..]);
      EscapeSingle(s[0]);
      EscapeHtmlIsPerChar(s[1..]);
    }
  }

  lemma {:induction false} EscapeEachInert(s: string)
    ensures Inert(EscapeEach(s))
  {
    if s != [] {
      EscapeEachInert(s[1..]);
    }
  }

  /** The output holds no raw `<`, `>`, `"` or `'`. */
  lemma EscapeHtmlInert(s: string)
    ensures Inert(EscapeHtml(s))
  {
    EscapeHtmlIsPerChar(s);
    EscapeEachInert(s);
  }

  lemma UnescapeAmp(rest: string)
    ensures Unescape("&amp;" + rest) == "&" + Unescape(rest)
  {
    var t := "&amp;" + rest;
    assert t[..5] == "&amp;" && t[5..] == rest;
  }

  lemma UnescapeLt(rest: string)
    ensures Unescape("&lt;" + rest) == "<" + Unescape(rest)
  {
    var t := "&lt;" + rest;
    assert t[1] == 'l';
    if |t| >= 5 {
      assert t[..5][1] != "&amp;"[1];
    }
    assert t[..4] == "&lt;" && t[4..] == rest;
  }

  lemma UnescapeGt(rest: string)
    ensures Unescape("&gt;" + rest) == ">" + Unescape(rest)
  {
    var t := "&gt;" + rest;
    assert t[1] == 'g';
    if |t| >= 5 {
      assert t[..5][1] != "&amp;"[1];
    }
    assert t[..4][1] != "&lt;"[1];
    assert t[..4] == "&gt;" && t[4..] == rest;
  }

  lemma UnescapeQuot(rest: string)
    ensures Unescape("&quot;" + rest) == "\"" + Unescape(rest)
  {
    var t := "&quot;" + rest;
    assert t[1] == 'q';
    assert t[..5][1] != "&amp;"[1];
    assert t[..4][1] != "&lt;"[1] && t[..4][1] != "&gt;"[1];
    assert t[..6] == "&quot;" && t[6..] == rest;
  }

  lemma UnescapeApos(rest: string)
    ensures Unescape("&#039;" + rest) == "'" + Unescape(rest)
  {
    var t := "&#039;" + rest;
    assert t[1] == '#';
    assert t[..5][1] != "&amp;"[1];
    assert t[..4][1] != "&lt;"[1] && t[..4][1] != "&gt;"[1];
    assert t[..6][1] != "&quot;"[1];
    assert t[..6] == "&#039;" && t[6..] == rest;
  }

  lemma UnescapePlain(c: char, rest: string)
    requires c != '&'
    ensures Unescape([c] + rest) == [c] + Unescape(rest)
  {
    var t := [c] + rest;
    if |t| >= 5 {
      assert t[..5][0] != "&amp;"[0];
    }
    if |t| >= 4 {
      assert t[..4][0] != "&lt;"[0] && t[..4][0] != "&gt;"[0];
    }
    if |t| >= 6 {
      assert t[..6][0] != "&quot;"[0] && t[..6][0] != "&#039;"[0];
    }
    assert t[1..] == rest;
  }

  /** Decoding undoes one character's escape, whatever follows it. */
  lemma UnescapeChar(c: char, rest: string)
    ensures Unescape(EscapeChar(c) + rest) == [c] + Unescape(rest)
  {
    match c
    case '&' => UnescapeAmp(rest);
    case '<' => UnescapeLt(rest);
    case '>' => UnescapeGt(rest);
    case '"' => UnescapeQuot(rest);
    case '\'' => UnescapeApos(rest);
    case _ => UnescapePlain(c, rest);
  }

  lemma {:induction false} UnescapeEscapeEach(s: string)
    ensures Unescape(EscapeEach(s)) == s
  {
    if s != [] {
      UnescapeChar(s[0], EscapeEach(s[1..]));
      UnescapeEscapeEach(s[1..]);
    }
  }

  /** Escaping loses nothing: the visible text of the escaped string is the input. */
  lemma UnescapeEscapeHtml(s: string)
    ensures Unescape(EscapeHtml(s)) == s
  {
    EscapeHtmlIsPerChar(s);
    UnescapeEscapeEach(s);
  }

  lemma {:induction false} EscapeEachUnchanged(s: string)
    ensures EscapeEach(s) == s <==> Inert(s) && '&' !in s
  {
    if s != [] {
      EscapeEachUnchanged(s[1..]);
      var c := s[0];
      if c == '&' || c == '<' || c == '>' || c == '"' || c == '\'' {
        assert |EscapeChar(c)| >= 4;
        EscapeEachLength(s[1..]);
        assert |EscapeEach(s)| > |s|;
      } else {
        assert s == [c] + s[1..];
      }
    }
  }

  lemma {:induction false} EscapeEachLength(s: string)
    ensures |EscapeEach(s)| >= |s|
  {
    if s != [] {
      EscapeEachLength(s[1..]);
    }
  }

  /** Text free of the five special characters passes through unchanged, and only such text. */
  lemma EscapeHtmlUnchanged(s: string)
    ensures EscapeHtml(s) == s <==> Inert(s) && '&' !in s
  {
    EscapeHtmlIsPerChar(s);
    EscapeEachUnchanged(s);
  }
}
