/**
  The text routines of Go's strconv, strings and fmt packages that the gateway calls,
  on byte strings.
 */
module Text {
  import opened Option

  // ---------------------------------------------------------------- numbers

  const INT64_BOUND: int := 0x8000_0000_0000_0000

  predicate IsDigit(c: char) {
    '0' <= c <= '9'
  }

  predicate AllDigits(s: string) {
    forall i :: 0 <= i < |s| ==> IsDigit(s[i])
  }

  function DigitValue(c: char): (d: int)
    requires IsDigit(c)
    ensures 0 <= d < 10
  {
    c as int - '0' as int
  }

  function Value(s: string): nat
    requires AllDigits(s)
  {
    if s == "" then 0 else Value(s[..|s| - 1]) * 10 + DigitValue(s[|s| - 1])
  }

  function Pow10(n: nat): nat {
    if n == 0 then 1 else 10 * Pow10(n - 1)
  }

  predicate Signed(s: string) {
    s != "" && (s[0] == '-' || s[0] == '+')
  }

  /** strconv.ParseInt(s, 10, 64); strconv.Atoi is the same function on a 64-bit machine. None is either error. */
  function ParseInt(s: string): Option<int> {
    var body := if Signed(s) then s[1..] else s;
    if body == "" || !AllDigits(body) then None
    else
      var n: int := Value(body);
      if s[0] == '-' then (if n > INT64_BOUND then None else Some(-n))
      else if n >= INT64_BOUND then None else Some(n)
  }

  function Decimal(n: nat): (s: string)
    ensures s != "" && AllDigits(s) && Value(s) == n
    ensures n < 10 ==> |s| == 1
  {
    var d := (n % 10 + '0' as int) as char;
    assert DigitValue(d) == n % 10;
    if n < 10 then assert [d][..0] == ""; [d]
    else
      var s := Decimal(n / 10) + [d];
      assert s[..|s| - 1] == Decimal(n / 10);
      s
  }

  /** fmt's %d */
  function FormatInt(n: int): string {
    if n < 0 then "-" + Decimal(-n) else Decimal(n)
  }

  /** fmt's %02d: the sign counts towards the width. */
  function FormatInt2(n: int): string {
    if 0 <= n < 10 then "0" + Decimal(n) else FormatInt(n)
  }

  /** Go's / and %, which truncate toward zero. */
  function Quot(n: int, d: int): int
    requires d > 0
  {
    if n < 0 then -((-n) / d) else n / d
  }

  function Rem(n: int, d: int): int
    requires d > 0
  {
    n - d * Quot(n, d)
  }

  lemma {:induction false} ValueOfConcat(a: string, b: string)
    requires AllDigits(a) && AllDigits(b)
    ensures AllDigits(a + b)
    ensures |b| == 2 ==> Value(a + b) == Value(a) * 100 + Value(b)
    ensures |b| == 1 ==> Value(a + b) == Value(a) * 10 + Value(b)
  {
    var s := a + b;
    if |b| == 1 {
      assert s[..|s| - 1] == a;
      assert Value(b) == Value(b[..0]) * 10 + DigitValue(b[0]);
    } else if |b| == 2 {
      assert s[..|s| - 1] == a + b[..1];
      assert (a + b[..1])[..|a|] == a;
      assert b[..1][..0] == "";
      assert Value(a + b[..1]) == Value(a) * 10 + DigitValue(b[0]);
      assert Value(b[..1]) == DigitValue(b[0]);
    }
  }

  // --------------------------------------------------------------- trimming

  /** The UTF-8 encodings of the code points unicode.IsSpace accepts. */
  predicate IsSpaceRune(r: string) {
    || (|r| == 1 && (9 <= r[0] as int <= 13 || r[0] == ' '))
    || (|r| == 2 && r[0] as int == 0xC2 && (r[1] as int == 0x85 || r[1] as int == 0xA0))
    || (|r| == 3 && r[0] as int == 0xE1 && r[1] as int == 0x9A && r[2] as int == 0x80)
    || (|r| == 3 && r[0] as int == 0xE2 && r[1] as int == 0x80
        && (0x80 <= r[2] as int <= 0x8A || r[2] as int == 0xA8 || r[2] as int == 0xA9 || r[2] as int == 0xAF))
    || (|r| == 3 && r[0] as int == 0xE2 && r[1] as int == 0x81 && r[2] as int == 0x9F)
    || (|r| == 3 && r[0] as int == 0xE3 && r[1] as int == 0x80 && r[2] as int == 0x80)
  }

  function SpaceAtFront(s: string): (n: nat)
    ensures n <= |s|
    ensures n > 0 ==> IsSpaceRune(s[..n])
  {
    if |s| >= 1 && IsSpaceRune(s[..1]) then 1
    else if |s| >= 2 && IsSpaceRune(s[..2]) then 2
    else if |s| >= 3 && IsSpaceRune(s[..3]) then 3
    else 0
  }

  function SpaceAtBack(s: string): (n: nat)
    ensures n <= |s|
    ensures n > 0 ==> IsSpaceRune(s[|s| - n..])
  {
    if |s| >= 1 && IsSpaceRune(s[|s| - 1..]) then 1
    else if |s| >= 2 && IsSpaceRune(s[|s| - 2..]) then 2
    else if |s| >= 3 && IsSpaceRune(s[|s| - 3..]) then 3
    else 0
  }

  function TrimFront(s: string): string
    decreases |s|
  {
    var n := SpaceAtFront(s);
    if n == 0 then s else TrimFront(s[n..])
  }

  function TrimBack(s: string): string
    decreases |s|
  {
    var n := SpaceAtBack(s);
    if n == 0 then s else TrimBack(s[..|s| - n])
  }

  /** strings.TrimSpace */
  function TrimSpace(s: string): string {
    TrimBack(TrimFront(s))
  }

  /** strings.TrimLeft(s, " 0"), and equally strings.TrimLeft(s, "0 "). */
  function TrimZeros(s: string): string {
    if s != "" && (s[0] == ' ' || s[0] == '0') then TrimZeros(s[1..]) else s
  }

  predicate IsGraphic(c: char) {
    33 <= c as int <= 126
  }

  lemma SpaceIsNotGraphic(r: string)
    requires IsSpaceRune(r)
    ensures r != "" && !IsGraphic(r[0]) && !IsGraphic(r[|r| - 1])
  {
  }

  lemma NoSpaceAtFront(s: string)
    requires s != "" && IsGraphic(s[0])
    ensures SpaceAtFront(s) == 0
  {
    var n := SpaceAtFront(s);
    if n > 0 {
      SpaceIsNotGraphic(s[..n]);
    }
  }

  lemma NoSpaceAtBack(s: string)
    requires s != "" && IsGraphic(s[|s| - 1])
    ensures SpaceAtBack(s) == 0
  {
    var n := SpaceAtBack(s);
    if n > 0 {
      var r := s[|s| - n..];
      SpaceIsNotGraphic(r);
    }
  }

  /** Text that starts and ends with graphic ASCII characters is already trimmed. */
  lemma TrimSpaceIdentity(s: string)
    requires s != "" ==> IsGraphic(s[0]) && IsGraphic(s[|s| - 1])
    ensures TrimSpace(s) == s
  {
    if s != "" {
      NoSpaceAtFront(s);
      NoSpaceAtBack(s);
    }
  }

  // -------------------------------------------------------- what trimming is

  /** White-space runes one after the other. */
  predicate Blank(s: string)
    decreases |s|
  {
    s == "" || exists n :: 1 <= n <= 3 && n <= |s| && IsSpaceRune(s[..n]) && Blank(s[n..])
  }

  lemma BlankCons(r: string, s: string)
    requires IsSpaceRune(r) && Blank(s)
    ensures Blank(r + s)
  {
    assert (r + s)[..|r|] == r && (r + s)[|r|..] == s;
  }

  lemma FirstRune(s: string) returns (n: nat)
    requires Blank(s) && s != ""
    ensures 1 <= n <= |s| && IsSpaceRune(s[..n]) && Blank(s[n..])
  {
    n :| 1 <= n <= 3 && n <= |s| && IsSpaceRune(s[..n]) && Blank(s[n..]);
  }

  lemma NothingIsBlank()
    ensures Blank("")
  {
  }

  lemma {:induction false} BlankSnoc(s: string, r: string)
    requires Blank(s) && IsSpaceRune(r)
    ensures Blank(s + r)
    decreases |s|
  {
    hide IsSpaceRune, Blank;
    if s == "" {
      NothingIsBlank();
      BlankCons(r, "");
      assert s + r == r + "";
    } else {
      var n := FirstRune(s);
      BlankSnoc(s[n..], r);
      BlankCons(s[..n], s[n..] + r);
      assert s + r == s[..n] + (s[n..] + r);
    }
  }

  lemma {:induction false} FrontTrimmed(s: string) returns (front: string)
    ensures Blank(front) && s == front + TrimFront(s)
    ensures SpaceAtFront(TrimFront(s)) == 0
    decreases |s|
  {
    hide IsSpaceRune, Blank, SpaceAtFront;
    NothingIsBlank();
    var n := SpaceAtFront(s);
    if n == 0 {
      front := "";
    } else {
      var rest := FrontTrimmed(s[n..]);
      BlankCons(s[..n], rest);
      front := s[..n] + rest;
      assert s == s[..n] + s[n..];
    }
  }

  lemma {:induction false} BackTrimmed(s: string) returns (back: string)
    ensures Blank(back) && s == TrimBack(s) + back
    ensures SpaceAtBack(TrimBack(s)) == 0
    decreases |s|
  {
    hide IsSpaceRune, Blank, SpaceAtBack;
    NothingIsBlank();
    var n := SpaceAtBack(s);
    if n == 0 {
      back := "";
    } else {
      var k := |s| - n;
      var rest := BackTrimmed(s[..k]);
      BlankSnoc(rest, s[k..]);
      back := rest + s[k..];
      assert s == s[..k] + s[k..];
    }
  }

  /** No run of one to three bytes at either end is a white-space rune. */
  predicate Bare(s: string) {
    forall n :: 1 <= n <= 3 && n <= |s| ==> !IsSpaceRune(s[..n]) && !IsSpaceRune(s[|s| - n..])
  }

  /**
    What trimming is: the text without a run of white space in front and another behind; what
    is left neither starts nor ends with white space.
   */
  lemma TrimSpaceSplits(s: string) returns (front: string, back: string)
    ensures Blank(front) && Blank(back) && s == front + TrimSpace(s) + back
    ensures Bare(TrimSpace(s))
  {
    hide IsSpaceRune, Blank, TrimFront, TrimBack, Bare;
    front := FrontTrimmed(s);
    back := BackTrimmed(TrimFront(s));
    BareBetween(TrimFront(s), TrimSpace(s));
  }

  lemma BareBetween(mid: string, t: string)
    requires SpaceAtFront(mid) == 0 && t <= mid && SpaceAtBack(t) == 0
    ensures Bare(t)
  {
    hide IsSpaceRune, SpaceAtFront, SpaceAtBack;
    forall n | 1 <= n <= 3 && n <= |t| ensures !IsSpaceRune(t[..n]) && !IsSpaceRune(t[|t| - n..]) {
      assert t[..n] == mid[..n];
      NoRuneAtFront(mid, n);
      NoRuneAtBack(t, n);
    }
  }

  lemma NoRuneAtFront(s: string, n: nat)
    requires SpaceAtFront(s) == 0 && 1 <= n <= 3 && n <= |s|
    ensures !IsSpaceRune(s[..n])
  {
    hide IsSpaceRune;
  }

  lemma NoRuneAtBack(s: string, n: nat)
    requires SpaceAtBack(s) == 0 && 1 <= n <= 3 && n <= |s|
    ensures !IsSpaceRune(s[|s| - n..])
  {
    hide IsSpaceRune;
  }

  // ------------------------------------------------------------------ UTF-8

  /** The UTF-8 encoding of a code point (section 3 of RFC 3629). */
  function Utf8(n: nat): string
    requires n < 0x110000
  {
    if n < 0x80 then [n as char]
    else if n < 0x800 then [(0xC0 + n / 0x40) as char, (0x80 + n % 0x40) as char]
    else if n < 0x10000 then
      [(0xE0 + n / 0x1000) as char, (0x80 + n / 0x40 % 0x40) as char, (0x80 + n % 0x40) as char]
    else
      [(0xF0 + n / 0x40000) as char, (0x80 + n / 0x1000 % 0x40) as char, (0x80 + n / 0x40 % 0x40) as char,
       (0x80 + n % 0x40) as char]
  }

  /** The code points unicode.IsSpace accepts. */
  predicate IsSpaceCode(n: nat) {
    9 <= n <= 13 || n == 0x20 || n == 0x85 || n == 0xA0 || n == 0x1680 || 0x2000 <= n <= 0x200A
    || n == 0x2028 || n == 0x2029 || n == 0x202F || n == 0x205F || n == 0x3000
  }

  function SpaceCode(r: string): nat {
    match |r|
    case 1 => r[0] as int
    case 2 => r[1] as int
    case 3 =>
      if r[0] as int == 0xE1 then 0x1680
      else if r[0] as int == 0xE3 then 0x3000
      else if r[1] as int == 0x81 then 0x205F
      else if r[2] as int >= 0x80 then 0x2000 + r[2] as int - 0x80
      else 0
    case _ => 0
  }

  lemma SpaceRuneDecodes(r: string)
    requires IsSpaceRune(r)
    ensures IsSpaceCode(SpaceCode(r)) && Utf8(SpaceCode(r)) == r
  {
    var n := SpaceCode(r);
    assert |Utf8(n)| == |r|;
  }

  /** The runes that trimming removes are exactly the encodings of the white-space code points. */
  lemma SpaceRunesAreSpaceCodes(r: string)
    ensures IsSpaceRune(r) <==> exists n: nat :: n < 0x110000 && IsSpaceCode(n) && r == Utf8(n)
  {
    if IsSpaceRune(r) {
      SpaceRuneDecodes(r);
      hide IsSpaceRune, Utf8;
      var n := SpaceCode(r);
      assert n < 0x110000 && r == Utf8(n);
    }
    forall n: nat | n < 0x110000 && IsSpaceCode(n) ensures IsSpaceRune(Utf8(n)) {
    }
  }
}
