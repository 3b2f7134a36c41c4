/**
  What Go's encoding/xml does with character data: UTF-8 (section 4 of RFC 3629) of legal
  characters (section 2.2 of XML 1.0) is read with its line ends normalised (section 2.11);
  anything else stops the decoder.
 */
module Xml {
  import opened Text

  // ------------------------------------------------------- legal characters

  predicate IsXmlCode(n: int) {
    n == 9 || n == 10 || n == 13 || 0x20 <= n <= 0xD7FF || 0xE000 <= n <= 0xFFFD || 0x10000 <= n <= 0x10FFFF
  }

  predicate Follows(c: char) {
    0x80 <= c as int < 0xC0
  }

  /** The shortest UTF-8 encoding of one legal character. */
  predicate IsXmlChar(r: string) {
    match |r|
    case 1 => (r[0] as int) < 0x80 && IsXmlCode(r[0] as int)
    case 2 => 0xC2 <= r[0] as int < 0xE0 && Follows(r[1])
    case 3 =>
      && 0xE0 <= r[0] as int < 0xF0 && Follows(r[1]) && Follows(r[2])
      && var n := (r[0] as int - 0xE0) * 0x1000 + (r[1] as int - 0x80) * 0x40 + (r[2] as int - 0x80);
         n >= 0x800 && IsXmlCode(n)
    case 4 =>
      && 0xF0 <= r[0] as int < 0xF8 && Follows(r[1]) && Follows(r[2]) && Follows(r[3])
      && var n := (r[0] as int - 0xF0) * 0x40000 + (r[1] as int - 0x80) * 0x1000
                  + (r[2] as int - 0x80) * 0x40 + (r[3] as int - 0x80);
         n >= 0x10000 && IsXmlCode(n)
    case _ => false
  }

  /** The length of the legal character s starts with; 0 when it starts with none. */
  function CharAtFront(s: string): (n: nat)
    ensures n <= |s| && n <= 4
    ensures n > 0 ==> IsXmlChar(s[..n])
    ensures n == 0 ==> forall k :: 1 <= k <= 4 && k <= |s| ==> !IsXmlChar(s[..k])
  {
    if |s| >= 1 && IsXmlChar(s[..1]) then 1
    else if |s| >= 2 && IsXmlChar(s[..2]) then 2
    else if |s| >= 3 && IsXmlChar(s[..3]) then 3
    else if |s| >= 4 && IsXmlChar(s[..4]) then 4
    else 0
  }

  predicate Legal(s: string)
    decreases |s|
  {
    s == "" || (CharAtFront(s) > 0 && Legal(s[CharAtFront(s)..]))
  }

  /** No encoding is the beginning of another. */
  lemma OneLength(r: string, j: nat, k: nat)
    requires j < k <= |r| && IsXmlChar(r[..j])
    ensures !IsXmlChar(r[..k])
  {
    assert j > 0 && r[..j][0] == r[0] && r[..k][0] == r[0];
  }

  lemma FrontChar(r: string, rest: string)
    requires IsXmlChar(r)
    ensures CharAtFront(r + rest) == |r| && (Legal(r + rest) <==> Legal(rest))
  {
    hide IsXmlChar;
    var s := r + rest;
    assert s[..|r|] == r && s[|r|..] == rest;
    CharSizes(r);
    var n := CharAtFront(s);
    if n < |r| {
      OneLength(s, n, |r|);
    } else if n > |r| {
      OneLength(s, |r|, n);
    }
  }

  lemma CharSizes(r: string)
    requires IsXmlChar(r)
    ensures 1 <= |r| <= 4
    ensures |r| > 1 ==> forall i :: 0 <= i < |r| ==> r[i] as int >= 0x80
  {
  }

  // --------------------------------------------------------------- line ends

  /** A carriage return, with or without a line feed behind it, is read as a line feed. */
  function LineEnds(s: string): string
    decreases |s|
  {
    if s == "" then ""
    else if s[0] != '\r' then [s[0]] + LineEnds(s[1..])
    else if |s| > 1 && s[1] == '\n' then "\n" + LineEnds(s[2..])
    else "\n" + LineEnds(s[1..])
  }

  /** Text without a carriage return is read as it stands; with one, it is read with a line feed. */
  lemma {:induction false} CarriageReturns(s: string)
    ensures '\r' !in s ==> LineEnds(s) == s
    ensures '\r' in s ==> '\n' in LineEnds(s)
    ensures LineEnds(s) == "" <==> s == ""
    decreases |s|
  {
    if s == "" {
    } else if s[0] == '\r' {
      assert LineEnds(s)[0] == '\n';
    } else {
      assert s == [s[0]] + s[1..];
      CarriageReturns(s[1..]);
    }
  }

  lemma {:induction false} ReadsThrough(s: string, k: nat)
    requires k <= |s| && '\r' !in s[..k]
    ensures LineEnds(s) == s[..k] + LineEnds(s[k..])
  {
    if k == 0 {
      assert s[..0] == "" && s[0..] == s;
    } else {
      assert s[..k][0] == s[0] && s[1..][..k - 1] == s[..k][1..] && s[1..][k - 1..] == s[k..];
      ReadsThrough(s[1..], k - 1);
    }
  }

  lemma {:induction false} ReadBack(s: string, k: nat)
    requires k <= |LineEnds(s)| && '\n' !in LineEnds(s)[..k]
    ensures k <= |s| && s[..k] == LineEnds(s)[..k]
  {
    if k == 0 {
    } else {
      assert LineEnds(s)[..k][0] == LineEnds(s)[0] != '\n';
      assert LineEnds(s)[1..] == LineEnds(s[1..]);
      assert LineEnds(s[1..])[..k - 1] == LineEnds(s)[..k][1..];
      ReadBack(s[1..], k - 1);
    }
  }

  /** The decoder looks at the text after normalising it; that is as good as before. */
  lemma {:induction false} LegalLineEnds(s: string)
    ensures Legal(LineEnds(s)) <==> Legal(s)
    decreases |s|
  {
    hide IsXmlChar;
    var n := CharAtFront(s);
    if s == "" {
    } else if s[0] == '\r' {
      LegalReturn(s);
    } else if n == 0 {
      IllegalFront(s);
    } else {
      var r := s[..n];
      CharSizes(r);
      assert r[0] == s[0];
      ReadsThrough(s, n);
      FrontChar(r, LineEnds(s[n..]));
      LegalLineEnds(s[n..]);
    }
  }

  lemma {:induction false} LegalReturn(s: string)
    requires s != "" && s[0] == '\r'
    ensures Legal(LineEnds(s)) <==> Legal(s)
    decreases |s|, 0
  {
    assert IsXmlChar("\r") && IsXmlChar("\n");
    hide IsXmlChar;
    var t := if |s| > 1 && s[1] == '\n' then s[2..] else s[1..];
    assert s == "\r" + s[1..];
    FrontChar("\r", s[1..]);
    FrontChar("\n", LineEnds(t));
    if |s| > 1 && s[1] == '\n' {
      assert s[1..] == "\n" + t;
      FrontChar("\n", t);
    }
    LegalLineEnds(t);
  }

  lemma IllegalFront(s: string)
    requires s != "" && s[0] != '\r' && CharAtFront(s) == 0
    ensures !Legal(LineEnds(s))
  {
    hide IsXmlChar;
    var t := LineEnds(s);
    var n := CharAtFront(t);
    assert t[..1] == s[..1];
    if n > 1 {
      CharSizes(t[..n]);
      assert '\n' !in t[..n];
      ReadBack(s, n);
    }
  }

  /** No carriage return is left. */
  lemma {:induction false} NoReturnIsLeft(s: string)
    ensures '\r' !in LineEnds(s)
    decreases |s|
  {
    if s == "" {
    } else if s[0] != '\r' {
      NoReturnIsLeft(s[1..]);
    } else if |s| > 1 && s[1] == '\n' {
      NoReturnIsLeft(s[2..]);
    } else {
      NoReturnIsLeft(s[1..]);
    }
  }

  /** A line that ends in a carriage return, or in both characters, is read as ending in a line feed. */
  lemma ReturnsAreFeeds(a: string, b: string)
    requires '\r' !in a
    ensures LineEnds(a + ("\r\n" + b)) == a + ("\n" + LineEnds(b))
    ensures b == "" || b[0] != '\n' ==> LineEnds(a + ("\r" + b)) == a + ("\n" + LineEnds(b))
  {
    var both, one := "\r\n" + b, "\r" + b;
    assert (a + both)[..|a|] == a && (a + both)[|a|..] == both;
    assert (a + one)[..|a|] == a && (a + one)[|a|..] == one;
    assert both[2..] == b && one[1..] == b;
    ReadsThrough(a + both, |a|);
    ReadsThrough(a + one, |a|);
  }

  // ------------------------------------------------------------ code points

  function CodePoint(r: string): int {
    match |r|
    case 1 => r[0] as int
    case 2 => (r[0] as int - 0xC0) * 0x40 + (r[1] as int - 0x80)
    case 3 => (r[0] as int - 0xE0) * 0x1000 + (r[1] as int - 0x80) * 0x40 + (r[2] as int - 0x80)
    case 4 =>
      (r[0] as int - 0xF0) * 0x40000 + (r[1] as int - 0x80) * 0x1000
      + (r[2] as int - 0x80) * 0x40 + (r[3] as int - 0x80)
    case _ => -1
  }

  lemma TwoParts(a: nat, b: nat)
    requires b < 0x40
    ensures (a * 0x40 + b) / 0x40 == a && (a * 0x40 + b) % 0x40 == b
  {
  }

  lemma ThreeParts(a: nat, b: nat, c: nat)
    requires b < 0x40 && c < 0x40
    ensures var n := a * 0x1000 + b * 0x40 + c; n / 0x1000 == a && n / 0x40 % 0x40 == b && n % 0x40 == c
  {
    var n := a * 0x1000 + b * 0x40 + c;
    TwoParts(a * 0x40 + b, c);
    TwoParts(a, b);
    assert n / 0x1000 == n / 0x40 / 0x40;
  }

  lemma FourParts(a: nat, b: nat, c: nat, d: nat)
    requires b < 0x40 && c < 0x40 && d < 0x40
    ensures var n := a * 0x40000 + b * 0x1000 + c * 0x40 + d;
      n / 0x40000 == a && n / 0x1000 % 0x40 == b && n / 0x40 % 0x40 == c && n % 0x40 == d
  {
    var n := a * 0x40000 + b * 0x1000 + c * 0x40 + d;
    ThreeParts(a * 0x40 + b, c, d);
    TwoParts(a, b);
    assert n / 0x40000 == n / 0x1000 / 0x40;
  }

  lemma XmlCharDecodes(r: string)
    requires IsXmlChar(r)
    ensures 0 <= CodePoint(r) < 0x110000 && IsXmlCode(CodePoint(r)) && Utf8(CodePoint(r)) == r
  {
    if |r| == 1 {
    } else if |r| == 2 {
      TwoParts(r[0] as int - 0xC0, r[1] as int - 0x80);
      assert Utf8(CodePoint(r)) == [r[0], r[1]];
    } else if |r| == 3 {
      XmlCharDecodes3(r);
    } else {
      XmlCharDecodes4(r);
    }
  }

  lemma XmlCharDecodes3(r: string)
    requires |r| == 3 && IsXmlChar(r)
    ensures 0 <= CodePoint(r) < 0x110000 && IsXmlCode(CodePoint(r)) && Utf8(CodePoint(r)) == r
  {
    ThreeParts(r[0] as int - 0xE0, r[1] as int - 0x80, r[2] as int - 0x80);
    var n := CodePoint(r);
    assert 0x800 <= n < 0x10000;
    assert Utf8(n) == [r[0], r[1], r[2]];
  }

  lemma XmlCharDecodes4(r: string)
    requires |r| == 4 && IsXmlChar(r)
    ensures 0 <= CodePoint(r) < 0x110000 && IsXmlCode(CodePoint(r)) && Utf8(CodePoint(r)) == r
  {
    FourParts(r[0] as int - 0xF0, r[1] as int - 0x80, r[2] as int - 0x80, r[3] as int - 0x80);
    var n := CodePoint(r);
    assert 0x10000 <= n < 0x110000;
    assert Utf8(n) == [r[0], r[1], r[2], r[3]];
  }

  lemma XmlCodeEncodes(n: nat)
    requires n < 0x110000 && IsXmlCode(n)
    ensures IsXmlChar(Utf8(n))
  {
    if n < 0x800 {
    } else if n < 0x10000 {
      XmlCodeEncodes3(n, n / 0x1000, n / 0x40 % 0x40, n % 0x40);
    } else {
      XmlCodeEncodes4(n, n / 0x40000, n / 0x1000 % 0x40, n / 0x40 % 0x40, n % 0x40);
    }
  }

  lemma XmlCodeEncodes3(n: nat, a: nat, b: nat, c: nat)
    requires 0x800 <= n < 0x10000 && IsXmlCode(n)
    requires a == n / 0x1000 && b == n / 0x40 % 0x40 && c == n % 0x40
    ensures IsXmlChar(Utf8(n))
  {
    assert n / 0x1000 == n / 0x40 / 0x40;
    assert n == a * 0x1000 + b * 0x40 + c;
    assert a < 16;
  }

  lemma XmlCodeEncodes4(n: nat, a: nat, b: nat, c: nat, d: nat)
    requires 0x10000 <= n < 0x110000 && IsXmlCode(n)
    requires a == n / 0x40000 && b == n / 0x1000 % 0x40 && c == n / 0x40 % 0x40 && d == n % 0x40
    ensures IsXmlChar(Utf8(n))
  {
    assert n / 0x40000 == n / 0x1000 / 0x40 && n / 0x1000 == n / 0x40 / 0x40;
    assert n == a * 0x40000 + b * 0x1000 + c * 0x40 + d;
    assert a < 8;
  }

  /** The legal characters are exactly the encodings of the legal code points. */
  lemma XmlCharsAreXmlCodes(r: string)
    ensures IsXmlChar(r) <==> exists n: nat :: n < 0x110000 && IsXmlCode(n) && r == Utf8(n)
  {
    hide IsXmlChar, Utf8, CodePoint;
    if IsXmlChar(r) {
      XmlCharDecodes(r);
      assert r == Utf8(CodePoint(r));
    }
    forall n: nat | n < 0x110000 && IsXmlCode(n) ensures IsXmlChar(Utf8(n)) {
      XmlCodeEncodes(n);
    }
  }

  // ----------------------------------------------------------- graphic text

  predicate Graphic(s: string) {
    forall i :: 0 <= i < |s| ==> IsGraphic(s[i])
  }

  lemma {:induction false} GraphicIsLegal(s: string)
    requires Graphic(s)
    ensures Legal(s) && LineEnds(s) == s
  {
    CarriageReturns(s);
    if s == "" {
    } else {
      assert IsXmlChar([s[0]]);
      assert s == [s[0]] + s[1..];
      FrontChar([s[0]], s[1..]);
      GraphicIsLegal(s[1..]);
    }
  }
}
