/** escapeHtml: the HTML escaping applied to form fields before they are put
    into the notification e-mail. Five global replacements run one after the
    other, ampersand first. */
module Escape {

  /** The character is one of the five that escapeHtml rewrites. */
  predicate Special(c: char)
  {
    c == '&' || c == '<' || c == '>' || c == '"' || c == '\''
  }

  /** String.prototype.replace with a global pattern of one character: every
      occurrence of c in s, left to right, becomes rep. */
  function ReplaceAll(s: string, c: char, rep: string): (r: string)
    ensures forall d :: d in r ==> (d in s && d != c) || d in rep
    ensures forall d :: d in s && d != c ==> d in r
    ensures c in s ==> forall d :: d in rep ==> d in r
  {
    if s == [] then []
    else (if s[0] == c then rep else [s[0]]) + ReplaceAll(s[1..], c, rep)
  }

  /** escapeHtml as written: & then < then > then " then ' are replaced. */
  function EscapeHtml(s: string): (r: string)
    ensures '<' !in r && '>' !in r && '"' !in r && '\'' !in r
  {
    var amp := ReplaceAll(s, '&', "&amp;");
    var lt := ReplaceAll(amp, '<', "&lt;");
    var gt := ReplaceAll(lt, '>', "&gt;");
    var quot := ReplaceAll(gt, '"', "&quot;");
    ReplaceAll(quot, '\'', "&#39;")
  }

  /** The entity each special character is written as; any other character stands for itself. */
  function EscapeChar(c: char): (e: string)
    ensures Special(c) ==> |e| >= 4 && e[0] == '&' && e[|e| - 1] == ';'
    ensures !Special(c) ==> e == [c]
  {
    if c == '&' then "&amp;"
    else if c == '<' then "&lt;"
    else if c == '>' then "&gt;"
    else if c == '"' then "&quot;"
    else if c == '\'' then "&#39;"
    else [c]
  }

  /** The reference definition: each input character escaped on its own. */
  function FlatEscape(s: string): string
  {
    if s == [] then [] else EscapeChar(s[0]) + FlatEscape(s[1..])
  }

  // ----- The chain of replacements is a per-character map -----

  lemma {:induction false} ReplaceAllConcat(a: string, b: string, c: char, rep: string)
    ensures ReplaceAll(a + b, c, rep) == ReplaceAll(a, c, rep) + ReplaceAll(b, c, rep)
  {
    if a == [] {
      assert a + b == b;
    } else {
      assert (a + b)[0] == a[0] && (a + b)[1..] == a[1..] + b;
      ReplaceAllConcat(a[1..], b, c, rep);
    }
  }

  lemma {:induction false} ReplaceAbsent(s: string, c: char, rep: string)
    requires c !in s
    ensures ReplaceAll(s, c, rep) == s
  {
    if s != [] {
      assert c !in s[1..];
      ReplaceAbsent(s[1..], c, rep);
    }
  }

  lemma EscapeHtmlConcat(a: string, b: string)
    ensures EscapeHtml(a + b) == EscapeHtml(a) + EscapeHtml(b)
  {
    var a1, b1 := ReplaceAll(a, '&', "&amp;"), ReplaceAll(b, '&', "&amp;");
    ReplaceAllConcat(a, b, '&', "&amp;");
    var a2, b2 := ReplaceAll(a1, '<', "&lt;"), ReplaceAll(b1, '<', "&lt;");
    ReplaceAllConcat(a1, b1, '<', "&lt;");
    var a3, b3 := ReplaceAll(a2, '>', "&gt;"), ReplaceAll(b2, '>', "&gt;");
    ReplaceAllConcat(a2, b2, '>', "&gt;");
    var a4, b4 := ReplaceAll(a3, '"', "&quot;"), ReplaceAll(b3, '"', "&quot;");
    ReplaceAllConcat(a3, b3, '"', "&quot;");
    ReplaceAllConcat(a4, b4, '\'', "&#39;");
  }

  /** Passing the text left by one replacement through the later ones leaves it alone. */
  lemma LaterReplacementsKeep(e: string, from: nat)
    requires from <= 4
    requires from <= 0 ==> '&' !in e
    requires from <= 1 ==> '<' !in e
    requires from <= 2 ==> '>' !in e
    requires from <= 3 ==> '"' !in e
    requires '\'' !in e
    ensures from == 1 ==> ReplaceAll(ReplaceAll(ReplaceAll(ReplaceAll(e, '<', "&lt;"), '>', "&gt;"), '"', "&quot;"), '\'', "&#39;") == e
    ensures from == 2 ==> ReplaceAll(ReplaceAll(ReplaceAll(e, '>', "&gt;"), '"', "&quot;"), '\'', "&#39;") == e
    ensures from == 3 ==> ReplaceAll(ReplaceAll(e, '"', "&quot;"), '\'', "&#39;") == e
    ensures from == 4 ==> ReplaceAll(e, '\'', "&#39;") == e
  {
    if from <= 1 {
      ReplaceAbsent(e, '<', "&lt;");
    }
    if from <= 2 {
      ReplaceAbsent(e, '>', "&gt;");
    }
    if from <= 3 {
      ReplaceAbsent(e, '"', "&quot;");
    }
    ReplaceAbsent(e, '\'', "&#39;");
  }

  /** On a single character the chain produces that character's entity. */
  lemma EscapeHtmlOneChar(x: char)
    ensures EscapeHtml([x]) == EscapeChar(x)
  {
    var s := [x];
    assert s[1..] == [];
    if x == '&' {
      assert ReplaceAll(s, '&', "&amp;") == "&amp;";
      LaterReplacementsKeep("&amp;", 1);
    } else {
      ReplaceAbsent(s, '&', "&amp;");
      if x == '<' {
        assert ReplaceAll(s, '<', "&lt;") == "&lt;";
        LaterReplacementsKeep("&lt;", 2);
      } else {
        ReplaceAbsent(s, '<', "&lt;");
        if x == '>' {
          assert ReplaceAll(s, '>', "&gt;") == "&gt;";
          LaterReplacementsKeep("&gt;", 3);
        } else {
          ReplaceAbsent(s, '>', "&gt;");
          if x == '"' {
            assert ReplaceAll(s, '"', "&quot;") == "&quot;";
            LaterReplacementsKeep("&quot;", 4);
          } else {
            ReplaceAbsent(s, '"', "&quot;");
            if x == '\'' {
              assert ReplaceAll(s, '\'', "&#39;") == "&#39;";
            } else {
              ReplaceAbsent(s, '\'', "&#39;");
            }
          }
        }
      }
    }
  }

  /** Because the ampersand is replaced first, the ampersands the later
      replacements introduce are never escaped again: the chain equals
      escaping every character independently. */
  lemma {:induction false} EscapeHtmlIsFlat(s: string)
    ensures EscapeHtml(s) == FlatEscape(s)
  {
    if s != [] {
      assert s == [s[0]] + s[1..];
      EscapeHtmlConcat([s[0]], s[1..]);
      EscapeHtmlOneChar(s[0]);
      EscapeHtmlIsFlat(s[1..]);
    }
  }

  // ----- What the output looks like -----

  /** Every character of the input that is not special appears in the output. */
  lemma EscapedKeepsPlainText(s: string)
    ensures forall d :: d in s && !Special(d) ==> d in EscapeHtml(s)
  {
    var amp := ReplaceAll(s, '&', "&amp;");
    var lt := ReplaceAll(amp, '<', "&lt;");
    var gt := ReplaceAll(lt, '>', "&gt;");
    var quot := ReplaceAll(gt, '"', "&quot;");
    forall d | d in s && !Special(d)
      ensures d in EscapeHtml(s)
    {
      assert d in amp;
      assert d in lt;
      assert d in gt;
      assert d in quot;
    }
  }

  /** One of the five entities starts at position i of r. */
  ghost predicate EntityAt(r: string, i: nat)
  {
    i <= |r| &&
    ("&amp;" <= r[i..] || "&lt;" <= r[i..] || "&gt;" <= r[i..] ||
     "&quot;" <= r[i..] || "&#39;" <= r[i..])
  }

  lemma EntityAtShift(e: string, rest: string, i: nat)
    requires i <= |rest| && EntityAt(rest, i)
    ensures EntityAt(e + rest, |e| + i)
  {
    assert (e + rest)[|e| + i..] == rest[i..];
  }

  lemma {:induction false} FlatAmpersandsStartEntities(s: string)
    ensures forall i :: 0 <= i < |FlatEscape(s)| && FlatEscape(s)[i] == '&' ==> EntityAt(FlatEscape(s), i)
  {
    if s != [] {
      var e, rest := EscapeChar(s[0]), FlatEscape(s[1..]);
      var r := FlatEscape(s);
      assert r == e + rest;
      FlatAmpersandsStartEntities(s[1..]);
      forall i | 0 <= i < |r| && r[i] == '&'
        ensures EntityAt(r, i)
      {
        if i < |e| {
          assert e[i] == '&';
          assert i == 0 && Special(s[0]);
          assert e <= r[0..];
        } else {
          assert rest[i - |e|] == '&';
          EntityAtShift(e, rest, i - |e|);
        }
      }
    }
  }

  /** Every & in the output begins one of the five entities, so the output
      carries no bare ampersand. */
  lemma AmpersandsStartEntities(s: string)
    ensures forall i :: 0 <= i < |EscapeHtml(s)| && EscapeHtml(s)[i] == '&' ==> EntityAt(EscapeHtml(s), i)
  {
    EscapeHtmlIsFlat(s);
    FlatAmpersandsStartEntities(s);
  }

  /** Text without special characters passes through unchanged. */
  lemma PlainTextUnchanged(s: string)
    requires forall i :: 0 <= i < |s| ==> !Special(s[i])
    ensures EscapeHtml(s) == s
  {
    ReplaceAbsent(s, '&', "&amp;");
    ReplaceAbsent(s, '<', "&lt;");
    ReplaceAbsent(s, '>', "&gt;");
    ReplaceAbsent(s, '"', "&quot;");
    ReplaceAbsent(s, '\'', "&#39;");
  }

  /** How many characters escaping adds to c. */
  function Growth(c: char): (g: nat)
    ensures |EscapeChar(c)| == 1 + g
  {
    if c == '&' || c == '\'' then 4
    else if c == '<' || c == '>' then 3
    else if c == '"' then 5
    else 0
  }

  /** The growth of a text with these characters: & and ' add 4, < and > add 3, " adds 5. */
  function GrowthOf(m: multiset<char>): int
  {
    4 * m['&'] + 3 * m['<'] + 3 * m['>'] + 5 * m['"'] + 4 * m['\'']
  }

  lemma GrowthCons(x: char, m: multiset<char>)
    ensures GrowthOf(multiset{x} + m) == Growth(x) + GrowthOf(m)
  {
  }

  lemma {:induction false} FlatEscapeLength(s: string)
    ensures |FlatEscape(s)| == |s| + GrowthOf(multiset(s))
  {
    if s != [] {
      assert s == [s[0]] + s[1..];
      assert multiset(s) == multiset{s[0]} + multiset(s[1..]);
      GrowthCons(s[0], multiset(s[1..]));
      FlatEscapeLength(s[1..]);
    }
  }

  /** Each & grows by 4 characters, < and > by 3, " by 5 and ' by 4. */
  lemma EscapeHtmlLength(s: string)
    ensures |EscapeHtml(s)| == |s| + 4 * multiset(s)['&'] + 3 * multiset(s)['<'] +
      3 * multiset(s)['>'] + 5 * multiset(s)['"'] + 4 * multiset(s)['\'']
  {
    EscapeHtmlIsFlat(s);
    FlatEscapeLength(s);
  }

  // ----- Decoding the output gives the input back -----

  /** Reads the five entities back; any other character stands for itself. */
  function Unescape(r: string): string
    decreases |r|
  {
    if r == [] then []
    else if "&amp;" <= r then "&" + Unescape(r[5..])
    else if "&lt;" <= r then "<" + Unescape(r[4..])
    else if "&gt;" <= r then ">" + Unescape(r[4..])
    else if "&quot;" <= r then "\"" + Unescape(r[6..])
    else if "&#39;" <= r then "'" + Unescape(r[5..])
    else [r[0]] + Unescape(r[1..])
  }

  lemma UnescapeStep(x: char, rest: string)
    ensures Unescape(EscapeChar(x) + rest) == [x] + Unescape(rest)
  {
    var e := EscapeChar(x);
    var r := e + rest;
    assert r[|e|..] == rest;
    assert r[..|e|] == e;
    if x == '&' {
      assert "&amp;" <= r;
    } else if x == '<' {
      assert r[1] == 'l' && !("&amp;" <= r);
      assert "&lt;" <= r;
    } else if x == '>' {
      assert r[1] == 'g' && !("&amp;" <= r) && !("&lt;" <= r);
      assert "&gt;" <= r;
    } else if x == '"' {
      assert r[1] == 'q' && !("&amp;" <= r) && !("&lt;" <= r) && !("&gt;" <= r);
      assert "&quot;" <= r;
    } else if x == '\'' {
      assert r[1] == '#' && !("&amp;" <= r) && !("&lt;" <= r) && !("&gt;" <= r) && !("&quot;" <= r);
      assert "&#39;" <= r;
    } else {
      assert r[0] == x && r[1..] == rest;
    }
  }

  lemma {:induction false} UnescapeFlat(s: string)
    ensures Unescape(FlatEscape(s)) == s
  {
    if s != [] {
      UnescapeStep(s[0], FlatEscape(s[1..]));
      UnescapeFlat(s[1..]);
    }
  }

  /** Escaping loses nothing: decoding the entities restores the original
      text, so two different inputs never give the same output. */
  lemma UnescapeEscapeHtml(s: string)
    ensures Unescape(EscapeHtml(s)) == s
  {
    EscapeHtmlIsFlat(s);
    UnescapeFlat(s);
  }

  lemma EscapeHtmlInjective(a: string, b: string)
    requires EscapeHtml(a) == EscapeHtml(b)
    ensures a == b
  {
    UnescapeEscapeHtml(a);
    UnescapeEscapeHtml(b);
  }
}
