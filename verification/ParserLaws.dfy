/** What holds of every parse, in either wire mode. */
module ParserLaws {
  import opened Option
  import opened Bytes
  import opened Text
  import opened FieldTable
  import opened Bitmap
  import opened Iso8583

  function Members(fs: seq<int>): set<int> {
    set f | f in fs && f != 1
  }

  lemma MembersStep(fs: seq<int>)
    requires fs != []
    ensures Members(fs) == (if fs[0] == 1 then {} else {fs[0]}) + Members(fs[1..])
  {
    assert fs == [fs[0]] + fs[1..];
  }

  /** A completed scan has a value for exactly the listed fields, and disturbs no other. */
  lemma {:induction false} ScanKeys(raw: Bytes, bcd: bool, fs: seq<int>, pos: nat, acc: map<int, Bytes>)
    requires pos <= |raw| && ScanFields(raw, bcd, fs, pos, acc).Done?
    ensures ScanFields(raw, bcd, fs, pos, acc).fields.Keys == acc.Keys + Members(fs)
    ensures forall f :: f in acc && f !in Members(fs) ==> ScanFields(raw, bcd, fs, pos, acc).fields[f] == acc[f]
  {
    if fs == [] {
    } else {
      MembersStep(fs);
      if fs[0] == 1 {
        ScanKeys(raw, bcd, fs[1..], pos, acc);
      } else {
        var r := ReadField(raw, bcd, pos, fs[0]);
        ScanKeys(raw, bcd, fs[1..], r.next, acc[fs[0] := r.value]);
      }
    }
  }

  lemma IncreasingTail(fs: seq<int>)
    requires Increasing(fs) && fs != []
    ensures Increasing(fs[1..]) && fs[0] !in fs[1..] && fs[0] !in Members(fs[1..])
  {
  }

  /** The value the scan reports for its first field is the one read at the cursor. */
  lemma ScanFirst(raw: Bytes, bcd: bool, fs: seq<int>, pos: nat, acc: map<int, Bytes>)
    requires pos <= |raw| && ScanFields(raw, bcd, fs, pos, acc).Done?
    requires fs != [] && Increasing(fs) && fs[0] != 1
    ensures var r := ReadField(raw, bcd, pos, fs[0]);
      r.Got? && ScanFields(raw, bcd, fs, pos, acc) == ScanFields(raw, bcd, fs[1..], r.next, acc[fs[0] := r.value])
      && fs[0] in ScanFields(raw, bcd, fs, pos, acc).fields
      && ScanFields(raw, bcd, fs, pos, acc).fields[fs[0]] == r.value
  {
    var r := ReadField(raw, bcd, pos, fs[0]);
    IncreasingTail(fs);
    ScanKeys(raw, bcd, fs[1..], r.next, acc[fs[0] := r.value]);
  }

  // ------------------------------------------------------------ value lengths

  lemma SmallValue(s: string)
    requires AllDigits(s) && |s| <= 3
    ensures Value(s) <= 999 && (|s| <= 2 ==> Value(s) <= 99) && (|s| <= 1 ==> Value(s) <= 9)
  {
    if s != "" {
      var t := s[..|s| - 1];
      if t != "" {
        var u := t[..|t| - 1];
        assert |u| <= 1;
        assert u != "" ==> u[..|u| - 1] == "";
      }
    }
  }

  lemma PrefixBound(s: string)
    requires |s| <= 3 && ParseInt(s).Some?
    ensures ParseInt(s).value <= 999
  {
    var body := if Signed(s) then s[1..] else s;
    SmallValue(body);
  }

  /** How long a value read in each mode can be. */
  predicate LengthFits(bcd: bool, def: FieldDef, v: Bytes) {
    if bcd then |v| <= def.length
    else
      match def.kind
      case Fixed => |v| == def.length
      case LLVar => |v| <= def.length
      case LLLVar => |v| <= 999
  }

  lemma BcdReadLength(raw: Bytes, pos: nat, f: int, def: FieldDef)
    requires pos <= |raw| && Def(f) == Some(def) && ReadBcd(raw, pos, f, def).Got?
    ensures |ReadBcd(raw, pos, f, def).value| <= def.length
  {
    assert f == 11 ==> def.length == 6;
    hide Def, Packed;
  }

  lemma ReadLength(raw: Bytes, bcd: bool, pos: nat, f: int)
    requires pos <= |raw| && ReadField(raw, bcd, pos, f).Got?
    ensures LengthFits(bcd, Def(f).value, ReadField(raw, bcd, pos, f).value)
  {
    var def := Def(f).value;
    if !bcd {
      if !def.kind.Fixed? {
        PrefixBound(raw[pos..pos + PrefixWidth(def.kind)]);
      }
    } else {
      BcdReadLength(raw, pos, f, def);
    }
  }

  lemma {:induction false} ScanLengths(raw: Bytes, bcd: bool, fs: seq<int>, pos: nat, acc: map<int, Bytes>)
    requires pos <= |raw| && ScanFields(raw, bcd, fs, pos, acc).Done?
    requires forall f :: f in acc ==> Def(f).Some? && LengthFits(bcd, Def(f).value, acc[f])
    ensures var fields := ScanFields(raw, bcd, fs, pos, acc).fields;
      forall f :: f in fields ==> Def(f).Some? && LengthFits(bcd, Def(f).value, fields[f])
  {
    if fs == [] {
    } else {
      if fs[0] == 1 {
        ScanLengths(raw, bcd, fs[1..], pos, acc);
      } else {
        var r := ReadField(raw, bcd, pos, fs[0]);
        ReadLength(raw, bcd, pos, fs[0]);
        ScanLengths(raw, bcd, fs[1..], r.next, acc[fs[0] := r.value]);
      }
    }
  }

  /** The header lists the announced fields in increasing order. */
  lemma HeaderIncreasing(raw: Bytes)
    requires ReadHeader(raw).Header?
    ensures Increasing(ReadHeader(raw).present)
  {
    var start := if IsBcd(raw) then 10 else 12;
    var primary := raw[start - 8..start];
    var h := ReadHeader(raw);
    if 1 in BitmapBits(primary, 0) {
      PrimaryThenSecondary(primary, raw[start..start + 8]);
    } else {
      AscendingSpec(SetBits(primary, 0), 1, 1 + 8 * |primary|);
    }
  }

  /**
    On success the message holds a value for exactly the set bits other than 1 (and for 18 in
    BCD mode), and every value has a length its table entry allows.
   */
  lemma ParsedShape(raw: Bytes)
    requires ParseSpec(raw).Parsed?
    ensures var h, fields := ReadHeader(raw), ParseSpec(raw).msg.fields;
      && h.Header?
      && fields.Keys == Members(h.present) + (if h.bcd then {18} else {})
      && forall f :: f in fields ==> Def(f).Some? && LengthFits(h.bcd, Def(f).value, fields[f])
  {
    var h := ReadHeader(raw);
    ScanKeys(raw, h.bcd, h.present, h.pos, map[]);
    ScanLengths(raw, h.bcd, h.present, h.pos, map[]);
  }

  // ----------------------------------------------------------------- header

  predicate PrintableByte(b: byte) {
    32 <= b as int <= 126
  }

  lemma Field1IffHighBit(primary: Bytes)
    requires |primary| == 8
    ensures 1 in BitmapBits(primary, 0) <==> primary[0] as int >= 128
  {
    hide BitmapBits;
    HasSecondaryIffField1(primary);
    BitAt(primary, 0, 0);
  }

  /**
    Which headers are rejected: shorter than twelve bytes; in ASCII mode, which a printable first
    byte selects, without four digits; and in either mode, where the bitmap's first byte promises
    a second one, without room for it.
   */
  lemma HeaderRejectedIff(raw: Bytes)
    ensures ReadHeader(raw).BadHeader? <==>
      || |raw| < 12
      || (PrintableByte(raw[0]) && exists i :: 0 <= i < 4 && !('0' <= raw[i] <= '9'))
      || (PrintableByte(raw[0]) && raw[4] as int >= 128 && |raw| < 20)
      || (!PrintableByte(raw[0]) && raw[2] as int >= 128 && |raw| < 18)
  {
    hide BitmapBits;
    if |raw| >= 12 {
      Field1IffHighBit(raw[4..12]);
      Field1IffHighBit(raw[2..10]);
      assert raw[4..12][0] == raw[4] && raw[2..10][0] == raw[2];
    }
  }

  /** The message type: four digits as they stand, or the hexadecimal text of two bytes. */
  lemma ModeAndMti(raw: Bytes)
    requires ParseSpec(raw).Parsed?
    ensures |raw| >= 12 && (IsBcd(raw) <==> !PrintableByte(raw[0]))
    ensures ParseSpec(raw).msg.mti == if PrintableByte(raw[0]) then raw[..4] else EncodeHex([raw[0], raw[1]])
    ensures PrintableByte(raw[0]) ==> AllDigits(ParseSpec(raw).msg.mti)
  {
    hide BitmapBits, ScanFields, EncodeHex;
    assert raw[..2] == [raw[0], raw[1]];
  }

  // ------------------------------------------------- what any ASCII field reads

  /** The number a length prefix of two or three characters stands for: digits, after a sign perhaps. */
  function PrefixNumber(p: Bytes): Option<int>
    requires |p| >= 2
  {
    if AllDigits(p) then Some(Value(p))
    else if p[0] == '+' && AllDigits(p[1..]) then Some(Value(p[1..]))
    else if p[0] == '-' && AllDigits(p[1..]) then (var n: int := Value(p[1..]); Some(-n))
    else None
  }

  lemma PrefixParses(p: Bytes)
    requires 2 <= |p| <= 3
    ensures ParseInt(p) == PrefixNumber(p)
  {
    if AllDigits(p) {
      SmallValue(p);
      assert !Signed(p);
    } else if Signed(p) && AllDigits(p[1..]) {
      SmallValue(p[1..]);
    }
    hide Value;
  }

  /** A field with a length prefix: four errors, one invalid slice, or that many bytes. */
  lemma ReadVarAscii(raw: Bytes, pos: nat, f: int)
    requires pos <= |raw| && Def(f).Some? && !Def(f).value.kind.Fixed?
    ensures var kind, most := Def(f).value.kind, Def(f).value.length;
      var start := pos + (if kind.LLVar? then 2 else 3);
      ReadField(raw, false, pos, f) ==
        (if start > |raw| then Bad(PrefixShort(f))
         else
           match PrefixNumber(raw[pos..start])
           case None => Bad(BadPrefix(f))
           case Some(n) =>
             if kind.LLVar? && n > most then Bad(TooLong(f))
             else if start + n > |raw| then Bad(DataShort(f))
             else if n < 0 then Crash
             else Got(raw[start..start + n], start + n))
  {
    hide Def, ParseInt, PrefixNumber;
    var start := pos + PrefixWidth(Def(f).value.kind);
    if start <= |raw| {
      PrefixParses(raw[pos..start]);
    }
  }

  /** A fixed field is its bytes as they stand, or an error when they are not all there. */
  lemma ReadFixedAscii(raw: Bytes, pos: nat, f: int)
    requires pos <= |raw| && Def(f).Some? && Def(f).value.kind.Fixed?
    ensures var end := pos + Def(f).value.length;
      ReadField(raw, false, pos, f) == (if end > |raw| then Bad(FixedShort(f)) else Got(raw[pos..end], end))
  {
    hide Def, ParseInt;
  }

  // --------------------------------------------------------- trailing bytes

  lemma ReadIgnoresTrailing(raw: Bytes, post: Bytes, pos: nat, f: int)
    requires pos <= |raw| && ReadField(raw, false, pos, f).Got?
    ensures ReadField(raw + post, false, pos, f) == ReadField(raw, false, pos, f)
  {
    hide ParseInt;
    var r, all := ReadField(raw, false, pos, f), raw + post;
    var start := pos + PrefixWidth(Def(f).value.kind);
    assert start <= r.next <= |raw|;
    assert all[pos..start] == raw[pos..start];
    assert all[start..r.next] == raw[start..r.next];
  }

  lemma {:induction false} ScanIgnoresTrailing(raw: Bytes, post: Bytes, fs: seq<int>, pos: nat, acc: map<int, Bytes>)
    requires pos <= |raw| && ScanFields(raw, false, fs, pos, acc).Done?
    ensures ScanFields(raw + post, false, fs, pos, acc) == ScanFields(raw, false, fs, pos, acc)
  {
    hide ReadField;
    if fs == [] {
    } else {
      if fs[0] == 1 {
        ScanIgnoresTrailing(raw, post, fs[1..], pos, acc);
      } else {
        var r := ReadField(raw, false, pos, fs[0]);
        ReadIgnoresTrailing(raw, post, pos, fs[0]);
        ScanIgnoresTrailing(raw, post, fs[1..], r.next, acc[fs[0] := r.value]);
      }
    }
  }

  /** Bytes behind an accepted ASCII message change nothing. */
  lemma TrailingBytesIgnored(raw: Bytes, post: Bytes)
    requires ParseSpec(raw).Parsed? && !IsBcd(raw)
    ensures ParseSpec(raw + post) == ParseSpec(raw)
  {
    var h := ReadHeader(raw);
    assert ReadHeader(raw + post) == h by {
      hide BitmapBits;
      var all := raw + post;
      assert all[..4] == raw[..4] && all[4..12] == raw[4..12];
      if h.pos == 20 {
        assert all[12..20] == raw[12..20];
      }
    }
    hide ReadHeader;
    ScanIgnoresTrailing(raw, post, h.present, h.pos, map[]);
  }

  // --------------------------------------------------------------- the panic

  /** Where the cursor stands before the i-th listed field; None when the scan stopped earlier. */
  function CursorAt(raw: Bytes, bcd: bool, fs: seq<int>, pos: nat, i: nat): (p: Option<nat>)
    requires pos <= |raw| && i <= |fs|
    ensures p.Some? ==> pos <= p.value <= |raw|
  {
    if i == 0 then Some(pos)
    else if fs[0] == 1 then CursorAt(raw, bcd, fs[1..], pos, i - 1)
    else
      match ReadField(raw, bcd, pos, fs[0])
      case Got(_, next) => CursorAt(raw, bcd, fs[1..], next, i - 1)
      case _ => None
  }

  /** A variable-length field whose length prefix Atoi reads as a negative number. */
  predicate NegativePrefix(raw: Bytes, pos: nat, f: int) {
    && f != 1 && Def(f).Some? && !Def(f).value.kind.Fixed?
    && var end := pos + PrefixWidth(Def(f).value.kind);
      end <= |raw| && ParseInt(raw[pos..end]).Some? && ParseInt(raw[pos..end]).value < 0
  }

  predicate NegativePrefixAt(raw: Bytes, fs: seq<int>, pos: nat, i: nat)
    requires pos <= |raw|
  {
    i < |fs| && CursorAt(raw, false, fs, pos, i).Some?
    && NegativePrefix(raw, CursorAt(raw, false, fs, pos, i).value, fs[i])
  }

  lemma {:induction false} CrashIffNegativePrefix(raw: Bytes, fs: seq<int>, pos: nat, acc: map<int, Bytes>)
    requires pos <= |raw|
    ensures ScanFields(raw, false, fs, pos, acc).Crashed? <==> exists i: nat :: NegativePrefixAt(raw, fs, pos, i)
  {
    if fs == [] {
    } else {
      var f := fs[0];
      var r := ReadField(raw, false, pos, f);
      assert f != 1 ==> (r.Crash? <==> NegativePrefix(raw, pos, f));
      assert NegativePrefixAt(raw, fs, pos, 0) <==> f != 1 && NegativePrefix(raw, pos, f);
      if f == 1 || r.Got? {
        var next := if f == 1 then pos else r.next;
        CrashIffNegativePrefix(raw, fs[1..], next, if f == 1 then acc else acc[f := r.value]);
        forall i: nat ensures NegativePrefixAt(raw, fs, pos, i + 1) <==> NegativePrefixAt(raw, fs[1..], next, i) {
        }
        if exists i: nat :: NegativePrefixAt(raw, fs, pos, i) {
          var i: nat :| NegativePrefixAt(raw, fs, pos, i);
          assert NegativePrefixAt(raw, fs[1..], next, i - 1);
        }
      } else {
        forall i: nat | i > 0 ensures !NegativePrefixAt(raw, fs, pos, i) {
        }
      }
    }
  }

  /** The parser panics exactly when, in ASCII mode, it reaches a length prefix such as "-1". */
  lemma PanicIffNegativePrefix(raw: Bytes)
    ensures ParseSpec(raw).Panicked? <==>
      var h := ReadHeader(raw);
      h.Header? && !h.bcd && exists i: nat :: NegativePrefixAt(raw, h.present, h.pos, i)
  {
    var h := ReadHeader(raw);
    if h.Header? && !h.bcd {
      CrashIffNegativePrefix(raw, h.present, h.pos, map[]);
    }
  }

  /** Such inputs exist: an account number of length "-1". */
  lemma MinusOnePanics()
    ensures ParseSpec("0200" + EncodeBitmap({2}, 0, 8) + "-1").Panicked?
  {
    var bitmap := EncodeBitmap({2}, 0, 8);
    var raw := "0200" + bitmap + "-1";
    hide EncodeBitmap;
    assert raw[..4] == "0200" && raw[4..12] == bitmap && raw[12..14] == "-1";
    assert AllDigits("0200");
    OnlyField2();
    assert ParseInt("-1") == Some(-1) by {
      assert "-1"[1..] == "1" && "1"[..0] == "";
    }
    assert ReadHeader(raw) == Header(false, "0200", [2], 12) by {
      hide BitmapBits;
    }
    hide ReadHeader, ParseInt;
    assert ReadField(raw, false, 12, 2) == Crash;
    assert ScanFields(raw, false, [2], 12, map[]).Crashed?;
  }

  lemma OnlyField2()
    ensures BitmapBits(EncodeBitmap({2}, 0, 8), 0) == [2]
  {
    hide EncodeBitmap, Ascending;
    var S := {2};
    BitsOfEncoded(S, 0, 8);
    AscendingSpec(S, 1, 65);
    Singleton(Ascending(S, 1, 65), 2);
  }

  lemma FirstTwo(a: seq<int>)
    requires Increasing(a)
    ensures |a| > 0 ==> a[0] in a
    ensures |a| > 1 ==> a[1] in a && a[0] < a[1]
  {
  }

  lemma Singleton(a: seq<int>, x: int)
    requires Increasing(a) && forall f :: f in a <==> f == x
    ensures a == [x]
  {
    FirstTwo(a);
    assert x in a;
  }

  // ------------------------------------------------------------ hex digits

  /** Every value read in BCD mode is text of hexadecimal digits. */
  lemma {:induction false} ScanHex(raw: Bytes, fs: seq<int>, pos: nat, acc: map<int, Bytes>)
    requires pos <= |raw| && ScanFields(raw, true, fs, pos, acc).Done?
    requires forall f :: f in acc ==> LowerHex(acc[f])
    ensures var fields := ScanFields(raw, true, fs, pos, acc).fields;
      forall f :: f in fields ==> LowerHex(fields[f])
  {
    hide ReadField;
    if fs == [] {
    } else if fs[0] == 1 {
      ScanHex(raw, fs[1..], pos, acc);
    } else {
      var r := ReadField(raw, true, pos, fs[0]);
      ReadHex(raw, pos, fs[0]);
      ScanHex(raw, fs[1..], r.next, acc[fs[0] := r.value]);
    }
  }

  lemma ReadHex(raw: Bytes, pos: nat, f: int)
    requires pos <= |raw| && ReadField(raw, true, pos, f).Got?
    ensures LowerHex(ReadField(raw, true, pos, f).value)
  {
    hide Def, Packed, EncodeHex;
  }

  lemma BcdFieldsAreHex(raw: Bytes)
    requires ParseSpec(raw).Parsed? && IsBcd(raw)
    ensures forall f :: f in ParseSpec(raw).msg.fields ==> LowerHex(ParseSpec(raw).msg.fields[f])
  {
    hide ReadHeader, EncodeHex, ScanFields;
    var h := ReadHeader(raw);
    ScanHex(raw, h.present, h.pos, map[]);
  }
}
