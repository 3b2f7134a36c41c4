/**
  What an amount field denotes, digit by digit: leading blanks and zeros count for nothing, an
  optional sign and digits denote their number while it fits 64 bits, and all else is zero.
 */
module AmountLaws {
  import opened Option
  import opened Text
  import opened Amount

  predicate IsPad(c: char) {
    c == ' ' || c == '0'
  }

  predicate Padding(s: string) {
    forall i :: 0 <= i < |s| ==> IsPad(s[i])
  }

  // ---------------------------------------------------------------- padding

  lemma {:induction false} TrimPadding(z: string, t: string)
    requires Padding(z)
    ensures TrimZeros(z + t) == TrimZeros(t)
  {
    if z == "" {
      assert z + t == t;
    } else {
      assert (z + t)[0] == z[0] && (z + t)[1..] == z[1..] + t;
      TrimPadding(z[1..], t);
    }
  }

  /** Every text is padding followed by nothing or by something that is not padding. */
  lemma {:induction false} Split(s: string) returns (z: string)
    ensures Padding(z) && s == z + TrimZeros(s)
    ensures TrimZeros(s) != "" ==> !IsPad(TrimZeros(s)[0])
  {
    if s == "" || !IsPad(s[0]) {
      z := "";
    } else {
      var rest := Split(s[1..]);
      var t := TrimZeros(s[1..]);
      z := [s[0]] + rest;
      assert TrimZeros(s) == t;
      hide TrimZeros;
      assert s == [s[0]] + s[1..] && z + t == [s[0]] + (rest + t);
    }
  }

  lemma {:induction false} LeadingZero(s: string)
    requires AllDigits(s)
    ensures AllDigits("0" + s) && Value("0" + s) == Value(s)
  {
    if s == "" {
      assert "0" + s == "0" && "0"[..0] == "";
    } else {
      var n := |s| - 1;
      LeadingZero(s[..n]);
      assert ("0" + s)[..n + 1] == "0" + s[..n];
      assert ("0" + s)[n + 1] == s[n];
    }
  }

  /** Of digits, trimming takes away leading zeros only, which do not change the number. */
  lemma {:induction false} TrimDigits(s: string)
    requires AllDigits(s)
    ensures AllDigits(TrimZeros(s)) && Value(TrimZeros(s)) == Value(s)
  {
    if s == "" || !IsPad(s[0]) {
    } else {
      assert AllDigits(s[1..]);
      TrimDigits(s[1..]);
      LeadingZero(s[1..]);
      assert s == "0" + s[1..];
    }
  }

  lemma {:induction false} DigitsBound(s: string, bound: nat)
    requires AllDigits(s) && bound == Pow10(|s|)
    ensures Value(s) < bound
  {
    if s == "" {
    } else {
      var n := |s| - 1;
      DigitsBound(s[..n], Pow10(n));
    }
  }

  // --------------------------------------------------------------- denotation

  /** The document's text and the rules' number, for a field whose trimmed text is t. */
  predicate Denotes(f4: string, n: int) {
    Cents(f4) == n && FormatAmount(f4) == Render(n) && (n >= 0 ==> ReadCents(FormatAmount(f4)) == Some(n))
  }

  lemma DenotesTrimmed(f4: string)
    ensures Denotes(f4, match ParseInt(TrimZeros(f4)) case None => 0 case Some(n) => n)
  {
    assert ParseInt("").None?;
    hide Render, ParseInt, FormatAmount, ReadCents;
    ReadingsAgree(f4);
    if Cents(f4) >= 0 {
      RenderReadsBack(Cents(f4));
    }
    assert f4 == "" ==> TrimZeros(f4) == "";
  }

  /**
    Digits, behind any run of blanks and zeros, denote their number of cents, for the rules and in
    the document alike, while it is below two to the 63; beyond that, zero.
   */
  lemma DigitsDenoteThemselves(z: string, s: string)
    requires Padding(z) && AllDigits(s)
    ensures Denotes(z + s, if Value(s) < 0x8000_0000_0000_0000 then Value(s) else 0)
  {
    hide Denotes;
    DenotesTrimmed(z + s);
    TrimPadding(z, s);
    TrimDigits(s);
    hide TrimZeros;
    var t := TrimZeros(s);
    assert t == "" ==> Value(t) == 0;
    assert t != "" ==> !Signed(t);
  }

  /** Twelve digits, which is all the field holds, and up to eighteen, always fit. */
  lemma ShortDigitsFit(s: string)
    requires AllDigits(s) && |s| <= 18
    ensures Value(s) < 0x8000_0000_0000_0000
  {
    PowersGrow(|s|, 18);
    EighteenDigits();
    DigitsBound(s, Pow10(|s|));
  }

  lemma EighteenDigits()
    ensures Pow10(18) == 1_000_000_000_000_000_000
  {
    assert Pow10(6) == 1_000_000 && Pow10(12) == 1_000_000_000_000;
  }

  lemma {:induction false} PowersGrow(a: nat, b: nat)
    requires a <= b
    ensures Pow10(a) <= Pow10(b)
    decreases b
  {
    if a == b {
    } else {
      PowersGrow(a, b - 1);
    }
  }

  /** So an amount field of digits denotes its digits, in the rules and in the document. */
  lemma AmountFieldDenotes(z: string, s: string)
    requires Padding(z) && AllDigits(s) && |s| <= 18
    ensures Cents(z + s) == Value(s) && ReadCents(FormatAmount(z + s)) == Some(Value(s))
  {
    hide Cents, FormatAmount, ReadCents, Render, Value;
    ShortDigitsFit(s);
    DigitsDenoteThemselves(z, s);
  }

  /** Behind padding, a sign and digits denote the signed number, while it fits 64 bits. */
  lemma SignedDigits(z: string, s: string)
    requires Padding(z) && AllDigits(s) && s != ""
    ensures var n: int := Value(s); Denotes(z + ("-" + s), if n <= 0x8000_0000_0000_0000 then -n else 0)
    ensures Denotes(z + ("+" + s), if Value(s) < 0x8000_0000_0000_0000 then Value(s) else 0)
  {
    hide Denotes;
    DenotesTrimmed(z + ("-" + s));
    DenotesTrimmed(z + ("+" + s));
    TrimPadding(z, "-" + s);
    TrimPadding(z, "+" + s);
    assert ("-" + s)[1..] == s && ("+" + s)[1..] == s;
  }

  /** Behind padding, whatever is neither digits nor a sign and digits denotes zero. */
  lemma OtherTextIsZero(z: string, t: string)
    requires Padding(z) && (t == "" || !IsPad(t[0]))
    requires t == "" || (!AllDigits(t) && ((t[0] != '-' && t[0] != '+') || !AllDigits(t[1..]) || |t| == 1))
    ensures Denotes(z + t, 0) && FormatAmount(z + t) == "0.00"
  {
    ZeroPrints();
    NotANumber(t);
    DenotesTrimmed(z + t);
    hide Denotes, Render, ParseInt;
    TrimPadding(z, t);
    assert TrimZeros(t) == t;
    DenotesPrinted(z + t, 0);
  }

  /** A text that is empty, or neither digits nor a sign and digits. */
  lemma NotANumber(t: string)
    requires t == "" || (!AllDigits(t) && ((t[0] != '-' && t[0] != '+') || !AllDigits(t[1..]) || |t| == 1))
    ensures ParseInt(t).None?
  {
  }

  lemma ZeroPrints()
    ensures Render(0) == "0.00"
  {
    assert Decimal(0) == "0";
  }

  lemma DenotesPrinted(f4: string, n: int)
    requires Denotes(f4, n)
    ensures FormatAmount(f4) == Render(n)
  {
    hide FormatAmount, Render;
  }

  lemma WholePart(k: nat)
    ensures FormatInt(0 - k) == (if k > 0 then "-" + Decimal(k) else Decimal(k))
  {
    hide Decimal;
  }

  lemma CentsPart(k: nat)
    ensures FormatInt2(0 - k) == (if k == 0 then "00" else "-" + Decimal(k))
  {
    if k == 0 {
      assert Decimal(0) == "0";
    } else {
      hide Decimal;
    }
  }

  lemma NegativeParts(n: int)
    requires n < 0
    ensures Quot(n, 100) == 0 - (-n) / 100 && Rem(n, 100) == 0 - (-n) % 100
  {
  }

  /** A negative amount prints a minus before each part that is not zero. */
  lemma NegativePrints(n: int)
    requires n < 0
    ensures var whole, cents := (-n) / 100, (-n) % 100;
      Render(n) == (if whole > 0 then "-" + Decimal(whole) else Decimal(whole)) + "."
                   + (if cents == 0 then "00" else "-" + Decimal(cents))
  {
    NegativeParts(n);
    WholePart((-n) / 100);
    CentsPart((-n) % 100);
    hide Decimal, FormatInt, FormatInt2, Quot, Rem;
  }
}
