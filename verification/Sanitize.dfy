/**
  `sanitizeXML`: trim, then five replacement passes one after the other. Section 4.6 of
  XML 1.0 defines the five entities; section 2.4 says where the characters must be escaped.
 */
module Sanitize {
  import opened Text

  /** strings.ReplaceAll for a non-empty pattern. */
  function ReplaceAll(s: string, pattern: string, repl: string): string
    requires pattern != ""
  {
    if s == "" then ""
    else if pattern <= s then repl + ReplaceAll(s[|pattern|..], pattern, repl)
    else [s[0]] + ReplaceAll(s[1..], pattern, repl)
  }

  /** The five passes in the source's order. */
  function Passes(s: string): string {
    var s1 := ReplaceAll(s, "&", "&amp;");
    var s2 := ReplaceAll(s1, "<", "&lt;");
    var s3 := ReplaceAll(s2, ">", "&gt;");
    var s4 := ReplaceAll(s3, "\"", "&quot;");
    ReplaceAll(s4, "'", "&apos;")
  }

  function SanitizeXml(s: string): string {
    Passes(TrimSpace(s))
  }

  // ------------------------------------------------- the simultaneous escape

  function EscapeChar(c: char): string {
    if c == '&' then "&amp;"
    else if c == '<' then "&lt;"
    else if c == '>' then "&gt;"
    else if c == '\"' then "&quot;"
    else if c == '\'' then "&apos;"
    else [c]
  }

  function Escape(s: string): string {
    if s == "" then "" else EscapeChar(s[0]) + Escape(s[1..])
  }

  /** What an XML reader does with the five predefined entities. */
  function Unescape(s: string): string {
    if s == "" then ""
    else if "&amp;" <= s then "&" + Unescape(s[5..])
    else if "&lt;" <= s then "<" + Unescape(s[4..])
    else if "&gt;" <= s then ">" + Unescape(s[4..])
    else if "&quot;" <= s then "\"" + Unescape(s[6..])
    else if "&apos;" <= s then "'" + Unescape(s[6..])
    else [s[0]] + Unescape(s[1..])
  }

  lemma {:induction false} ReplaceConcat(a: string, b: string, c: char, repl: string)
    ensures ReplaceAll(a + b, [c], repl) == ReplaceAll(a, [c], repl) + ReplaceAll(b, [c], repl)
  {
    if a == "" {
      assert a + b == b;
    } else {
      assert (a + b)[1..] == a[1..] + b;
      ReplaceConcat(a[1..], b, c, repl);
      assert ([c] <= a + b) == (a[0] == c) == ([c] <= a);
    }
  }

  lemma {:induction false} ReplaceNothing(s: string, c: char, repl: string)
    requires c !in s
    ensures ReplaceAll(s, [c], repl) == s
  {
    if s == "" {
    } else {
      assert s[0] in s && forall x :: x in s[1..] ==> x in s;
      ReplaceNothing(s[1..], c, repl);
    }
  }

  lemma ReplaceOne(c: char, repl: string)
    ensures ReplaceAll([c], [c], repl) == repl
  {
    assert [c][1..] == "";
    assert ReplaceAll("", [c], repl) == "";
    assert [c] <= [c];
    assert ReplaceAll([c], [c], repl) == repl + ReplaceAll([c][1..], [c], repl);
  }

  lemma PassesConcat(a: string, b: string)
    ensures Passes(a + b) == Passes(a) + Passes(b)
  {
    hide ReplaceAll;
    ReplaceConcat(a, b, '&', "&amp;");
    var a1, b1 := ReplaceAll(a, "&", "&amp;"), ReplaceAll(b, "&", "&amp;");
    ReplaceConcat(a1, b1, '<', "&lt;");
    var a2, b2 := ReplaceAll(a1, "<", "&lt;"), ReplaceAll(b1, "<", "&lt;");
    ReplaceConcat(a2, b2, '>', "&gt;");
    var a3, b3 := ReplaceAll(a2, ">", "&gt;"), ReplaceAll(b2, ">", "&gt;");
    ReplaceConcat(a3, b3, '\"', "&quot;");
    var a4, b4 := ReplaceAll(a3, "\"", "&quot;"), ReplaceAll(b3, "\"", "&quot;");
    ReplaceConcat(a4, b4, '\'', "&apos;");
  }

  lemma PassesChar(c: char)
    ensures Passes([c]) == EscapeChar(c)
  {
    hide ReplaceAll;
    var s1 := if c == '&' then "&amp;" else [c];
    if c == '&' { ReplaceOne(c, "&amp;"); } else { ReplaceNothing([c], '&', "&amp;"); }
    var s2 := if c == '<' then "&lt;" else s1;
    if c == '<' { ReplaceOne(c, "&lt;"); } else { ReplaceNothing(s1, '<', "&lt;"); }
    var s3 := if c == '>' then "&gt;" else s2;
    if c == '>' { ReplaceOne(c, "&gt;"); } else { ReplaceNothing(s2, '>', "&gt;"); }
    var s4 := if c == '\"' then "&quot;" else s3;
    if c == '\"' { ReplaceOne(c, "&quot;"); } else { ReplaceNothing(s3, '\"', "&quot;"); }
    if c == '\'' { ReplaceOne(c, "&apos;"); } else { ReplaceNothing(s4, '\'', "&apos;"); }
  }

  lemma {:induction false} PassesAreEscape(s: string)
    ensures Passes(s) == Escape(s)
  {
    hide Passes, EscapeChar;
    if s == "" {
      PassesNothing();
    } else {
      assert s == [s[0]] + s[1..];
      PassesConcat([s[0]], s[1..]);
      PassesChar(s[0]);
      PassesAreEscape(s[1..]);
    }
  }

  lemma PassesNothing()
    ensures Passes("") == ""
  {
  }

  /** The five passes, though sequential, escape every character of the trimmed text exactly once. */
  lemma SanitizeIsEscape(s: string)
    ensures SanitizeXml(s) == Escape(TrimSpace(s))
  {
    PassesAreEscape(TrimSpace(s));
  }

  lemma UnescapeFirst(c: char, rest: string)
    ensures Unescape(EscapeChar(c) + rest) == [c] + Unescape(rest)
  {
    var s := EscapeChar(c) + rest;
    assert s[|EscapeChar(c)|..] == rest;
    if c == '&' {
      assert "&amp;" <= s;
    } else if c == '<' {
      assert s[1] == 'l';
    } else if c == '>' {
      assert s[1] == 'g';
    } else if c == '\"' {
      assert s[1] == 'q';
    } else if c == '\'' {
      assert s[1] == 'a' && s[2] == 'p';
    } else {
      assert s[0] == c;
    }
  }

  /** Escaping loses nothing. */
  lemma {:induction false} UnescapeEscape(s: string)
    ensures Unescape(Escape(s)) == s
  {
    hide EscapeChar;
    if s == "" {
    } else {
      UnescapeFirst(s[0], Escape(s[1..]));
      UnescapeEscape(s[1..]);
    }
  }

  /** A reader of the document sees the trimmed original. */
  lemma ReaderSeesTrimmed(s: string)
    ensures Unescape(SanitizeXml(s)) == TrimSpace(s)
    ensures SanitizeXml(s) == "" <==> TrimSpace(s) == ""
  {
    SanitizeIsEscape(s);
    UnescapeEscape(TrimSpace(s));
  }

  lemma {:induction false} UnescapePlain(s: string)
    requires '&' !in s
    ensures Unescape(s) == s
  {
    if s == "" {
    } else {
      assert s[0] in s && forall x :: x in s[1..] ==> x in s;
      UnescapePlain(s[1..]);
    }
  }

  // --------------------------------------------------------- what it emits

  predicate Markup(c: char) {
    c == '<' || c == '>' || c == '\"' || c == '\''
  }

  predicate EntityAt(s: string) {
    "&amp;" <= s || "&lt;" <= s || "&gt;" <= s || "&quot;" <= s || "&apos;" <= s
  }

  /** No markup character, and every ampersand opens one of the five entities. */
  predicate SafeText(s: string) {
    forall i :: 0 <= i < |s| ==> !Markup(s[i]) && (s[i] == '&' ==> EntityAt(s[i..]))
  }

  lemma SafeChar(c: char, rest: string)
    requires SafeText(rest)
    ensures SafeText(EscapeChar(c) + rest)
  {
    var e := EscapeChar(c);
    var s := e + rest;
    forall i | 0 <= i < |s| ensures !Markup(s[i]) && (s[i] == '&' ==> EntityAt(s[i..])) {
      if i >= |e| {
        assert s[i..] == rest[i - |e|..];
      } else if s[i] == '&' {
        assert i == 0 && s[0..] == s;
      }
    }
  }

  lemma {:induction false} EscapeIsSafe(s: string)
    ensures SafeText(Escape(s))
  {
    hide EscapeChar;
    if s == "" {
    } else {
      EscapeIsSafe(s[1..]);
      SafeChar(s[0], Escape(s[1..]));
    }
  }

  /** Sanitised text cannot open or close a tag, an attribute or an unknown entity. */
  lemma SanitizedIsSafe(s: string)
    ensures SafeText(SanitizeXml(s))
  {
    SanitizeIsEscape(s);
    EscapeIsSafe(TrimSpace(s));
  }
}
