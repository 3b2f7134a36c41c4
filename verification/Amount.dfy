/**
  The two readings of field 4: `AmountKES` in the parser, which feeds the rules, and
  `FormatAmount` in the engine, which feeds the XML. Amounts are integer cents.
 */
module Amount {
  import opened Option
  import opened Text

  /** Message.AmountKES on the text of F4 ("" when absent), in cents. */
  function Cents(f4: string): int {
    if f4 == "" then 0
    else
      match ParseInt(TrimZeros(f4))
      case None => 0
      case Some(n) => n
  }

  /** enrichment.FormatAmount */
  function FormatAmount(raw: string): string {
    var t := TrimZeros(raw);
    if t == "" then "0.00"
    else
      match ParseInt(t)
      case None => "0.00"
      case Some(n) => Render(n)
  }

  /** What the format string "%d.%02d" prints for n / 100 and n % 100. */
  function Render(n: int): string {
    FormatInt(Quot(n, 100)) + "." + FormatInt2(Rem(n, 100))
  }

  /** A reader of decimal amounts: digits, a point and exactly two digits. */
  function ReadCents(s: string): Option<nat> {
    if |s| < 4 || s[|s| - 3] != '.' || !AllDigits(s[..|s| - 3]) || !AllDigits(s[|s| - 2..]) then None
    else Some(Value(s[..|s| - 3]) * 100 + Value(s[|s| - 2..]))
  }

  /** For every text whatsoever, both readings denote one integer. */
  lemma ReadingsAgree(f4: string)
    ensures FormatAmount(f4) == Render(Cents(f4))
  {
    assert Render(0) == "0.00" by {
      assert Decimal(0) == "0";
    }
    assert ParseInt("").None?;
  }

  lemma TwoDigits(c: nat)
    requires c < 100
    ensures |FormatInt2(c)| == 2 && AllDigits(FormatInt2(c)) && Value(FormatInt2(c)) == c
  {
    if c < 10 {
      var d := Decimal(c);
      assert Value("0") == 0 by { assert "0"[..0] == ""; }
      ValueOfConcat("0", d);
    } else {
      var d := Decimal(c);
      assert d == Decimal(c / 10) + [(c % 10 + '0' as int) as char];
      assert |Decimal(c / 10)| == 1;
    }
  }

  /** A non-negative amount prints with exactly two fraction digits and reads back as the same cents. */
  lemma RenderReadsBack(n: nat)
    ensures ReadCents(Render(n)) == Some(n)
  {
    var whole, cents := Decimal(n / 100), FormatInt2(n % 100);
    TwoDigits(n % 100);
    var s := Render(n);
    assert s == whole + "." + cents;
    assert s[..|s| - 3] == whole && s[|s| - 2..] == cents;
  }

  /** The validator looks for a minus sign; one is printed exactly when the amount is negative. */
  lemma MinusIffNegative(n: int)
    ensures '-' in Render(n) <==> n < 0
  {
    var w, c := Quot(n, 100), Rem(n, 100);
    if n >= 0 {
      RenderReadsBack(n);
      TwoDigits(c);
      assert '-' !in FormatInt(w) && '-' !in FormatInt2(c);
    } else if w < 0 {
      assert Render(n)[0] == '-';
    } else {
      assert w == 0 && -100 < c < 0;
      var s := FormatInt2(c);
      assert s[0] == '-';
      assert Render(n)[|FormatInt(w)| + 1] == '-';
    }
  }

  /** The printed amount starts and ends with a graphic character, so trimming leaves it alone. */
  lemma RenderIsGraphic(n: int)
    ensures Render(n) != "" && (forall i :: 0 <= i < |Render(n)| ==> IsGraphic(Render(n)[i]))
    ensures forall i :: 0 <= i < |Render(n)| ==> Render(n)[i] == '-' || Render(n)[i] == '.' || IsDigit(Render(n)[i])
  {
    var w, c := FormatInt(Quot(n, 100)), FormatInt2(Rem(n, 100));
    assert forall i :: 0 <= i < |w| ==> w[i] == '-' || IsDigit(w[i]);
    assert forall i :: 0 <= i < |c| ==> c[i] == '-' || IsDigit(c[i]);
  }
}
