/**
  The packed (BCD) wire format as an encoder, and exactly which messages survive the trip.

  Two fields are read with a heuristic. F2 is taken to be omitted unless its length byte is
  2, so the encoder leaves out an empty F2 altogether. F11 may not touch the last two bytes
  of the message, which also stand for F18.
 */
module BcdCodec {
  import opened Option
  import opened Bytes
  import opened FieldTable
  import opened Bitmap
  import opened Iso8583
  import opened ParserLaws
  import opened AsciiCodec

  // ----------------------------------------------------------------- packing

  function Digit(c: char): (n: int)
    requires IsLowerHex(c)
    ensures 0 <= n < 16 && HexDigit(n) == c
  {
    Nibble(c).value
  }

  /** Two digits to a byte; an odd last digit is followed by a zero. */
  function Pack(s: Bytes): (p: Bytes)
    requires LowerHex(s)
    ensures |p| == (|s| + 1) / 2
  {
    if s == [] then []
    else if |s| == 1 then [Byte(Digit(s[0]) * 16)]
    else [Byte(Digit(s[0]) * 16 + Digit(s[1]))] + Pack(s[2..])
  }

  lemma PairHex(c: byte, d: byte, rest: Bytes)
    requires IsLowerHex(c) && IsLowerHex(d)
    ensures EncodeHex([Byte(Digit(c) * 16 + Digit(d))] + rest) == [c, d] + EncodeHex(rest)
  {
    var b := Byte(Digit(c) * 16 + Digit(d));
    assert b as int / 16 == Digit(c) && b as int % 16 == Digit(d);
    hide Digit, HexDigit;
    assert ([b] + rest)[1..] == rest;
  }

  lemma LoneHex(c: byte)
    requires IsLowerHex(c)
    ensures |EncodeHex([Byte(Digit(c) * 16)])| == 2 && EncodeHex([Byte(Digit(c) * 16)])[0] == c
  {
    var b := Byte(Digit(c) * 16);
    assert b as int / 16 == Digit(c);
    hide Digit, HexDigit;
  }

  lemma {:induction false} PackHex(s: Bytes)
    requires LowerHex(s)
    ensures |EncodeHex(Pack(s))| >= |s| && EncodeHex(Pack(s))[..|s|] == s
  {
    hide EncodeHex, Digit;
    if s == [] {
    } else if |s| == 1 {
      LoneHex(s[0]);
      assert EncodeHex(Pack(s))[..1] == [s[0]] == s;
    } else {
      PackHex(s[2..]);
      PairHex(s[0], s[1], Pack(s[2..]));
      assert s == [s[0], s[1]] + s[2..];
    }
  }

  /** Unpacking packed digits gives them back, whatever their number, odd or even. */
  lemma PackRoundTrip(s: Bytes)
    requires LowerHex(s)
    ensures DecodeBcd(Pack(s), |s|) == s
  {
    PackHex(s);
  }

  // ----------------------------------------------------------------- encoder

  function PackedByte(n: nat): (b: byte)
    requires n < 100
    ensures Packed(b) == n
    ensures b as int == 2 <==> n == 2
  {
    Byte(n / 10 * 16 + n % 10)
  }

  /** A value the packed format can carry in field f. */
  predicate BcdFits(f: int, v: Bytes) {
    && f != 1 && Def(f).Some? && LowerHex(v)
    && (if Def(f).value.kind.Fixed? then |v| == Def(f).value.length else |v| <= Def(f).value.length)
  }

  function EncodeBcdField(f: int, v: Bytes): Bytes
    requires BcdFits(f, v)
  {
    if f == 2 && v == [] then []
    else
      match Def(f).value.kind
      case Fixed => Pack(v)
      case LLVar => [PackedByte(|v|)] + Pack(v)
      case LLLVar => [PackedByte(|v| / 100), PackedByte(|v| % 100)] + Pack(v)
  }

  predicate BcdCovers(fields: map<int, Bytes>, fs: seq<int>) {
    forall f :: f in fs && f != 1 ==> f in fields && BcdFits(f, fields[f])
  }

  function EncodeBcdFields(fields: map<int, Bytes>, fs: seq<int>): Bytes
    requires BcdCovers(fields, fs)
  {
    if fs == [] then []
    else if fs[0] == 1 then EncodeBcdFields(fields, fs[1..])
    else EncodeBcdField(fs[0], fields[fs[0]]) + EncodeBcdFields(fields, fs[1..])
  }

  /** A message for this mode: its first byte must not look like printable ASCII. */
  predicate BcdMessage(m: Message) {
    && |m.mti| == 4 && LowerHex(m.mti) && IsBcd(Pack(m.mti))
    && forall f :: f in m.fields ==> BcdFits(f, m.fields[f])
  }

  lemma BcdMessageIsCovered(m: Message)
    requires BcdMessage(m)
    ensures BcdCovers(m.fields, InOrder(m.fields.Keys))
  {
    OrderedKeys(m.fields.Keys);
  }

  function EncodeBcd(m: Message): Bytes
    requires BcdMessage(m)
  {
    BcdMessageIsCovered(m);
    Pack(m.mti) + Bitmaps(m.fields.Keys) + EncodeBcdFields(m.fields, InOrder(m.fields.Keys))
  }

  // ------------------------------------------------------- which fields survive

  /** Field f with value v is read back when `rest` is what follows it on the wire. */
  predicate Survives(f: int, v: Bytes, rest: Bytes) {
    && (f == 2 ==> |v| == 2 || (v == [] && (rest == [] || rest[0] as int != 2)))
    && (f == 11 ==> |rest| >= 2)
  }

  predicate AllSurvive(fields: map<int, Bytes>, fs: seq<int>)
    requires BcdCovers(fields, fs)
  {
    fs == [] ||
    ((fs[0] != 1 ==> Survives(fs[0], fields[fs[0]], EncodeBcdFields(fields, fs[1..])))
     && AllSurvive(fields, fs[1..]))
  }

  /** The rest of the message from pos on is t. */
  predicate Remains(raw: Bytes, pos: nat, t: Bytes) {
    pos <= |raw| && raw[pos..] == t
  }

  lemma RemainsConcat(raw: Bytes, pos: nat, a: Bytes, b: Bytes)
    requires Remains(raw, pos, a + b)
    ensures pos + |a| <= |raw| && raw[pos..pos + |a|] == a && Remains(raw, pos + |a|, b)
  {
    assert raw[pos..pos + |a|] == raw[pos..][..|a|];
    assert raw[pos + |a|..] == raw[pos..][|a|..];
  }

  lemma TakePacked(raw: Bytes, pos: nat, limit: int, v: Bytes, rest: Bytes)
    requires LowerHex(v) && Remains(raw, pos, Pack(v) + rest)
    requires pos + |Pack(v)| <= limit <= |raw|
    ensures TakeBcd(raw, pos, limit, (|v| + 1) / 2, |v|) == Got(v, pos + |Pack(v)|)
  {
    RemainsConcat(raw, pos, Pack(v), rest);
    PackRoundTrip(v);
  }

  lemma ReadPackedShort(raw: Bytes, pos: nat, limit: int, f: int, def: FieldDef, v: Bytes, rest: Bytes)
    requires def.kind.LLVar? && LowerHex(v) && |v| <= def.length <= 99
    requires Remains(raw, pos, [PackedByte(|v|)] + Pack(v) + rest)
    requires pos + 1 + |Pack(v)| <= limit <= |raw|
    ensures ReadBcdData(raw, pos, limit, f, def) == Got(v, pos + 1 + |Pack(v)|)
  {
    hide TakeBcd, Packed, Pack, LowerHex;
    var prefix := [PackedByte(|v|)];
    assert prefix + Pack(v) + rest == prefix + (Pack(v) + rest);
    RemainsConcat(raw, pos, prefix, Pack(v) + rest);
    assert raw[pos..pos + 1][0] == prefix[0];
    TakePacked(raw, pos + 1, limit, v, rest);
  }

  lemma ReadPackedLong(raw: Bytes, pos: nat, limit: int, f: int, def: FieldDef, v: Bytes, rest: Bytes)
    requires def.kind.LLLVar? && LowerHex(v) && |v| <= def.length <= 999
    requires Remains(raw, pos, [PackedByte(|v| / 100), PackedByte(|v| % 100)] + Pack(v) + rest)
    requires pos + 2 + |Pack(v)| <= limit <= |raw|
    ensures ReadBcdData(raw, pos, limit, f, def) == Got(v, pos + 2 + |Pack(v)|)
  {
    hide TakeBcd, Packed, Pack, LowerHex;
    var prefix := [PackedByte(|v| / 100), PackedByte(|v| % 100)];
    assert prefix + Pack(v) + rest == prefix + (Pack(v) + rest);
    RemainsConcat(raw, pos, prefix, Pack(v) + rest);
    assert raw[pos..pos + 2][0] == prefix[0] && raw[pos..pos + 2][1] == prefix[1];
    TakePacked(raw, pos + 2, limit, v, rest);
  }

  lemma ReadPackedData(raw: Bytes, pos: nat, limit: int, f: int, v: Bytes, rest: Bytes)
    requires BcdFits(f, v) && EncodeBcdField(f, v) != []
    requires Remains(raw, pos, EncodeBcdField(f, v) + rest)
    requires pos + |EncodeBcdField(f, v)| <= limit <= |raw|
    ensures ReadBcdData(raw, pos, limit, f, Def(f).value) == Got(v, pos + |EncodeBcdField(f, v)|)
  {
    var def := Def(f).value;
    assert f == 11 ==> def == FieldDef(Fixed, 6);
    hide TakeBcd, Packed, Def, LowerHex, Remains, Pack;
    match def.kind {
      case Fixed => TakePacked(raw, pos, limit, v, rest);
      case LLVar => ReadPackedShort(raw, pos, limit, f, def, v, rest);
      case LLLVar => ReadPackedLong(raw, pos, limit, f, def, v, rest);
    }
  }

  lemma NonEmptyField(f: int, v: Bytes)
    requires BcdFits(f, v)
    ensures EncodeBcdField(f, v) == [] <==> f == 2 && v == []
  {
    if Def(f).value.kind.Fixed? {
      assert v != [];
    }
  }

  /** A field that survives is read back and the cursor lands right behind it. */
  lemma ReadSurvivor(raw: Bytes, pos: nat, f: int, v: Bytes, rest: Bytes)
    requires BcdFits(f, v) && Survives(f, v, rest)
    requires Remains(raw, pos, EncodeBcdField(f, v) + rest)
    ensures ReadField(raw, true, pos, f) == Got(v, pos + |EncodeBcdField(f, v)|)
  {
    var e := EncodeBcdField(f, v);
    NonEmptyField(f, v);
    RemainsConcat(raw, pos, e, rest);
    if e == [] {
      assert e + rest == rest;
    } else {
      if f == 2 {
        assert Def(f) == Some(FieldDef(LLVar, 19));
        assert raw[pos..pos + |e|][0] == e[0] == PackedByte(2);
      }
      hide ReadBcdData, EncodeBcdField, Def;
      ReadPackedData(raw, pos, BcdLimit(raw, f), f, v, rest);
    }
  }

  // ------------------------------------------------- what any packed field reads

  /** Where `bytes` bytes from pos end, or the input does. */
  function EndOf(raw: Bytes, pos: nat, bytes: nat): nat
    requires pos <= |raw|
    ensures pos <= EndOf(raw, pos, bytes) <= |raw|
  {
    if pos + bytes <= |raw| then pos + bytes else |raw|
  }

  /** The text of at most n digits standing between two places. */
  function DigitsBetween(raw: Bytes, start: nat, end: nat, n: nat): Bytes
    requires start <= end <= |raw|
  {
    EncodeHex(raw[start..end])[..if n <= 2 * (end - start) then n else 2 * (end - start)]
  }

  lemma TakesWhatIsLeft(raw: Bytes, start: nat, n: nat)
    requires start <= |raw|
    ensures var end := EndOf(raw, start, (n + 1) / 2);
      TakeBcd(raw, start, |raw|, (n + 1) / 2, n) == Got(DigitsBetween(raw, start, end, n), end)
  {
    assert EncodeHex([]) == [];
    hide EncodeHex;
  }

  /** A fixed field other than F11 reads its bytes, or those that are left, as that many digits. */
  lemma ReadFixedPacked(raw: Bytes, pos: nat, f: int)
    requires pos <= |raw| && Def(f).Some? && Def(f).value.kind.Fixed? && f != 11
    ensures var n := Def(f).value.length;
      var end := EndOf(raw, pos, (n + 1) / 2);
      ReadField(raw, true, pos, f) == Got(DigitsBetween(raw, pos, end, n), end)
  {
    assert Def(2).value.kind.LLVar?;
    TakesWhatIsLeft(raw, pos, Def(f).value.length);
    hide Def, EndOf, DigitsBetween;
    if pos < |raw| {
      hide TakeBcd;
    }
  }

  /** F11 reads at most three bytes and stops short of the last two. */
  lemma ReadF11Packed(raw: Bytes, pos: nat)
    requires pos <= |raw|
    ensures var end := if pos + 3 <= |raw| - 2 then pos + 3 else if pos <= |raw| - 2 then |raw| - 2 else pos;
      ReadField(raw, true, pos, 11) == Got(EncodeHex(raw[pos..end]), end)
  {
    assert Def(11) == Some(FieldDef(Fixed, 6));
    assert EncodeHex([]) == [];
    hide Def, EncodeHex;
  }

  /** A field with a packed length reads that many digits, or those that are left; too long a length is an error. */
  lemma ReadVarPacked(raw: Bytes, pos: nat, f: int)
    requires pos < |raw| && Def(f).Some? && Def(f).value.kind.LLVar? && (f == 2 ==> raw[pos] as int == 2)
    ensures var n := raw[pos] as int / 16 * 10 + raw[pos] as int % 16;
      var end := EndOf(raw, pos + 1, (n + 1) / 2);
      ReadField(raw, true, pos, f)
      == (if n > Def(f).value.length then Bad(TooLong(f)) else Got(DigitsBetween(raw, pos + 1, end, n), end))
  {
    assert Def(11).value.kind.Fixed?;
    TakesWhatIsLeft(raw, pos + 1, raw[pos] as int / 16 * 10 + raw[pos] as int % 16);
    hide Def, TakeBcd, EndOf, DigitsBetween;
  }

  lemma ReadLongVarPacked(raw: Bytes, pos: nat, f: int)
    requires pos < |raw| && Def(f).Some? && Def(f).value.kind.LLLVar?
    ensures var r := ReadField(raw, true, pos, f);
      if pos + 2 > |raw| then r == Bad(PrefixShort(f))
      else
        var n := (raw[pos] as int / 16 * 10 + raw[pos] as int % 16) * 100
                 + raw[pos + 1] as int / 16 * 10 + raw[pos + 1] as int % 16;
        var end := EndOf(raw, pos + 2, (n + 1) / 2);
        r == (if n > Def(f).value.length then Bad(TooLong(f)) else Got(DigitsBetween(raw, pos + 2, end, n), end))
  {
    assert Def(11).value.kind.Fixed? && Def(2).value.kind.LLVar?;
    if pos + 2 <= |raw| {
      TakesWhatIsLeft(raw, pos + 2, (raw[pos] as int / 16 * 10 + raw[pos] as int % 16) * 100
                                    + raw[pos + 1] as int / 16 * 10 + raw[pos + 1] as int % 16);
    }
    hide Def, TakeBcd, EndOf, DigitsBetween;
  }

  /** An F11 with fewer than two bytes behind it comes back short. */
  lemma ReadShortF11(raw: Bytes, pos: nat, v: Bytes, rest: Bytes)
    requires BcdFits(11, v) && |rest| < 2 && Remains(raw, pos, EncodeBcdField(11, v) + rest)
    ensures ReadField(raw, true, pos, 11).Got? && ReadField(raw, true, pos, 11).value != v
  {
    assert Def(11) == Some(FieldDef(Fixed, 6));
    assert |raw| == pos + 3 + |rest|;
    assert BcdLimit(raw, 11) == pos + 1 + |rest|;
  }

  /** An F2 whose length byte is not 2 comes back empty. */
  lemma ReadOddF2(raw: Bytes, pos: nat, v: Bytes, rest: Bytes)
    requires BcdFits(2, v) && v != [] && |v| != 2 && Remains(raw, pos, EncodeBcdField(2, v) + rest)
    ensures ReadField(raw, true, pos, 2) == Got([], pos)
  {
    assert Def(2) == Some(FieldDef(LLVar, 19));
    var e := EncodeBcdField(2, v);
    RemainsConcat(raw, pos, e, rest);
    assert raw[pos..pos + |e|][0] == e[0] == PackedByte(|v|);
  }

  /** An omitted F2 in front of a byte 2 swallows it. */
  lemma ReadPhantomF2(raw: Bytes, pos: nat, rest: Bytes)
    requires rest != [] && rest[0] as int == 2 && Remains(raw, pos, rest)
    ensures var r := ReadField(raw, true, pos, 2);
      r.Got? && (if |rest| == 1 then r == Got([], |raw|) else r.value != [])
  {
    assert Def(2) == Some(FieldDef(LLVar, 19));
    assert raw[pos] == raw[pos..][0] == rest[0];
    assert Packed(raw[pos]) == 2;
  }

  // -------------------------------------------------------------- round trip

  lemma CoversTail(fields: map<int, Bytes>, fs: seq<int>)
    requires BcdCovers(fields, fs) && fs != []
    ensures BcdCovers(fields, fs[1..])
    ensures fs[0] != 1 ==> fs[0] in fields && BcdFits(fs[0], fields[fs[0]])
  {
    assert fs[0] in fs;
  }

  /** When every field survives, the scan returns every field's own value. */
  lemma {:induction false} ScanSurvivors(raw: Bytes, pos: nat, fields: map<int, Bytes>, fs: seq<int>,
                                         acc: map<int, Bytes>)
    requires BcdCovers(fields, fs) && AllSurvive(fields, fs)
    requires Remains(raw, pos, EncodeBcdFields(fields, fs))
    requires forall f :: f in acc ==> f in fields && acc[f] == fields[f]
    ensures var s := ScanFields(raw, true, fs, pos, acc);
      s.Done? && forall f :: f in s.fields ==> f in fields && s.fields[f] == fields[f]
    decreases |fs|
  {
    hide ReadField, BcdFits, EncodeBcdField, Survives, BcdCovers;
    if fs == [] {
    } else {
      CoversTail(fields, fs);
      if fs[0] == 1 {
        ScanSurvivors(raw, pos, fields, fs[1..], acc);
      } else {
        var v, rest := fields[fs[0]], EncodeBcdFields(fields, fs[1..]);
        ReadSurvivor(raw, pos, fs[0], v, rest);
        RemainsConcat(raw, pos, EncodeBcdField(fs[0], v), rest);
        ScanSurvivors(raw, pos + |EncodeBcdField(fs[0], v)|, fields, fs[1..], acc[fs[0] := v]);
      }
    }
  }

  /** Some listed field other than 18 comes back with another value, or the scan fails. */
  predicate Spoiled(s: Scan, fields: map<int, Bytes>) {
    s.Done? ==> exists f :: f in fields && f != 18 && f in s.fields && s.fields[f] != fields[f]
  }

  lemma OneByteField(f: int, v: Bytes)
    requires BcdFits(f, v) && |EncodeBcdField(f, v)| == 1
    ensures f != 18 && (Def(f).value.kind.Fixed? || EncodeBcdField(f, v) == [PackedByte(0)])
  {
    if Def(f).value.kind.LLVar? {
      assert |Pack(v)| == 0;
    }
  }

  /** A message tail that is the single byte 2 is a two-digit fixed field, and not F11 or F18. */
  lemma LoneByteTwo(fields: map<int, Bytes>, fs: seq<int>)
    requires BcdCovers(fields, fs) && EncodeBcdFields(fields, fs) == [PackedByte(2)]
    requires fs != [] && Increasing(fs) && fs[0] > 2
    ensures fs[0] in fields && fs[0] != 18 && fields[fs[0]] != []
  {
    CoversTail(fields, fs);
    var g, v := fs[0], fields[fs[0]];
    NonEmptyField(g, v);
    assert EncodeBcdField(g, v) == [PackedByte(2)];
    OneByteField(g, v);
  }

  /** An exhausted BCD stream yields an empty value, or the field is unknown to the table. */
  lemma ReadPastEnd(raw: Bytes, f: int)
    requires Def(f).Some?
    ensures ReadField(raw, true, |raw|, f) == Got([], |raw|)
  {
  }

  lemma PhantomSpoils(raw: Bytes, pos: nat, fields: map<int, Bytes>, fs: seq<int>, acc: map<int, Bytes>)
    requires BcdCovers(fields, fs) && Increasing(fs) && fs != [] && fs[0] == 2 && fields[2] == []
    requires Remains(raw, pos, EncodeBcdFields(fields, fs[1..]))
    requires EncodeBcdFields(fields, fs[1..]) != [] && EncodeBcdFields(fields, fs[1..])[0] as int == 2
    ensures Spoiled(ScanFields(raw, true, fs, pos, acc), fields)
  {
    hide ReadField, BcdFits, EncodeBcdField, Survives, BcdCovers;
    CoversTail(fields, fs);
    IncreasingTail(fs);
    var rest, s := EncodeBcdFields(fields, fs[1..]), ScanFields(raw, true, fs, pos, acc);
    ReadPhantomF2(raw, pos, rest);
    if s.Done? {
      ScanFirst(raw, true, fs, pos, acc);
      if |rest| == 1 {
        var tail := fs[1..];
        assert tail != [] && tail[0] == fs[1] > 2;
        assert rest == [PackedByte(2)];
        LoneByteTwo(fields, tail);
        CoversTail(fields, tail);
        FitsIsKnown(tail[0], fields[tail[0]]);
        ReadPastEnd(raw, tail[0]);
        ScanFirst(raw, true, tail, |raw|, acc[2 := []]);
      }
    }
  }

  lemma FitsIsKnown(f: int, v: Bytes)
    requires BcdFits(f, v)
    ensures Def(f).Some?
  {
  }

  lemma CasualtySpoils(raw: Bytes, pos: nat, fields: map<int, Bytes>, fs: seq<int>, acc: map<int, Bytes>)
    requires BcdCovers(fields, fs) && Increasing(fs) && fs != [] && fs[0] != 1
    requires !Survives(fs[0], fields[fs[0]], EncodeBcdFields(fields, fs[1..]))
    requires Remains(raw, pos, EncodeBcdFields(fields, fs))
    ensures Spoiled(ScanFields(raw, true, fs, pos, acc), fields)
  {
    CoversTail(fields, fs);
    var f, v, rest, s := fs[0], fields[fs[0]], EncodeBcdFields(fields, fs[1..]), ScanFields(raw, true, fs, pos, acc);
    if f == 2 && v == [] {
      assert EncodeBcdField(f, v) + rest == rest;
      PhantomSpoils(raw, pos, fields, fs, acc);
    } else {
      hide ReadField, BcdFits, EncodeBcdField, BcdCovers;
      if f == 11 {
        ReadShortF11(raw, pos, v, rest);
      } else {
        ReadOddF2(raw, pos, v, rest);
      }
      if s.Done? {
        ScanFirst(raw, true, fs, pos, acc);
      }
    }
  }

  /** When some field does not survive, the scan does not return every field's own value. */
  lemma {:induction false} ScanCasualties(raw: Bytes, pos: nat, fields: map<int, Bytes>, fs: seq<int>,
                                          acc: map<int, Bytes>)
    requires BcdCovers(fields, fs) && Increasing(fs) && !AllSurvive(fields, fs)
    requires Remains(raw, pos, EncodeBcdFields(fields, fs))
    ensures Spoiled(ScanFields(raw, true, fs, pos, acc), fields)
    decreases |fs|
  {
    hide ReadField, BcdFits, EncodeBcdField, Survives, BcdCovers, Spoiled;
    CoversTail(fields, fs);
    IncreasingTail(fs);
    if fs[0] == 1 {
      ScanCasualties(raw, pos, fields, fs[1..], acc);
    } else {
      var v, rest := fields[fs[0]], EncodeBcdFields(fields, fs[1..]);
      if Survives(fs[0], v, rest) {
        ReadSurvivor(raw, pos, fs[0], v, rest);
        RemainsConcat(raw, pos, EncodeBcdField(fs[0], v), rest);
        ScanCasualties(raw, pos + |EncodeBcdField(fs[0], v)|, fields, fs[1..], acc[fs[0] := v]);
      } else {
        CasualtySpoils(raw, pos, fields, fs, acc);
      }
    }
  }

  lemma DecodeBcdHeader(raw: Bytes, mti: Bytes, keys: set<int>)
    requires |mti| == 4 && LowerHex(mti) && IsBcd(Pack(mti)) && |raw| >= 12
    requires forall f :: f in keys ==> f > 1
    requires |raw| >= 2 + |Bitmaps(keys)| && raw[..2] == Pack(mti) && raw[2..2 + |Bitmaps(keys)|] == Bitmaps(keys)
    ensures ReadHeader(raw) == Header(true, mti, InOrder(keys), 2 + |Bitmaps(keys)|)
  {
    hide Pack, LowerHex, Ascending, EncodeBitmap, BitmapBits;
    var primary := EncodeBitmap(Flagged(keys), 0, 8);
    assert raw[..2][0] == raw[0];
    PackRoundTrip(mti);
    assert EncodeHex(raw[..2]) == mti;
    assert raw[2..10] == Bitmaps(keys)[..8] == primary;
    BitsOfEncoded(Flagged(keys), 0, 8);
    AscendingSpec(Flagged(keys), 1, 65);
    if HasHighField(keys) {
      assert raw[10..18] == Bitmaps(keys)[8..] == EncodeBitmap(keys, 64, 8);
      BitsOfEncoded(keys, 64, 8);
    }
  }

  /** The message with field 18 replaced by the last two bytes of its encoding. */
  function WithTrailer(m: Message): Message
    requires BcdMessage(m)
  {
    m.(fields := m.fields[18 := Trailer(EncodeBcd(m))])
  }

  lemma BcdHeader(m: Message)
    requires BcdMessage(m) && |EncodeBcd(m)| >= 12
    ensures BcdCovers(m.fields, InOrder(m.fields.Keys))
    ensures var fs, pos := InOrder(m.fields.Keys), 2 + |Bitmaps(m.fields.Keys)|;
      && ReadHeader(EncodeBcd(m)) == Header(true, m.mti, fs, pos)
      && Remains(EncodeBcd(m), pos, EncodeBcdFields(m.fields, fs))
  {
    hide Pack, Bitmaps, InOrder, EncodeBcdFields, ReadHeader;
    BcdMessageIsCovered(m);
    var raw, maps := EncodeBcd(m), Bitmaps(m.fields.Keys);
    assert raw[..2] == Pack(m.mti) && raw[2..2 + |maps|] == maps;
    DecodeBcdHeader(raw, m.mti, m.fields.Keys);
  }

  /**
    BCD round trip, exactly. A packed message of at least twelve bytes is parsed back with all
    its fields, F18 replaced by the trailer, if and only if its F2 is two digits (or is left
    out and no byte 2 follows) and at least two bytes stand behind its F11.
   */
  lemma BcdRoundTrip(m: Message)
    requires BcdMessage(m) && |EncodeBcd(m)| >= 12
    ensures BcdCovers(m.fields, InOrder(m.fields.Keys))
    ensures ParseSpec(EncodeBcd(m)) == Parsed(WithTrailer(m)) <==> AllSurvive(m.fields, InOrder(m.fields.Keys))
  {
    hide ReadHeader, EncodeBcd, InOrder, EncodeBcdFields, AllSurvive, BcdCovers, ReadField, Bitmaps, ParseSpec,
      WithTrailer, Spoiled;
    BcdHeader(m);
    var raw, fs, pos := EncodeBcd(m), InOrder(m.fields.Keys), 2 + |Bitmaps(m.fields.Keys)|;
    OrderedKeys(m.fields.Keys);
    var s := ScanFields(raw, true, fs, pos, map[]);
    ParsedAs(raw, m, s);
    if AllSurvive(m.fields, fs) {
      ScanSurvivors(raw, pos, m.fields, fs, map[]);
      ScanKeys(raw, true, fs, pos, map[]);
      assert s.fields == m.fields;
    } else {
      ScanCasualties(raw, pos, m.fields, fs, map[]);
    }
  }

  /** Only F18 is forgiven: an equal scan gives the trailered message, a spoiled one does not. */
  lemma ParsedAs(raw: Bytes, m: Message, s: Scan)
    requires BcdMessage(m) && raw == EncodeBcd(m) && |raw| >= 12
    requires ReadHeader(raw).Header? && ReadHeader(raw).bcd && ReadHeader(raw).mti == m.mti
    requires s == ScanFields(raw, true, ReadHeader(raw).present, ReadHeader(raw).pos, map[])
    ensures s.Done? && s.fields == m.fields ==> ParseSpec(raw) == Parsed(WithTrailer(m))
    ensures Spoiled(s, m.fields) ==> ParseSpec(raw) != Parsed(WithTrailer(m))
  {
    hide ReadHeader, EncodeBcd, Trailer, BcdMessage, ScanFields;
    var t := Trailer(raw);
    if Spoiled(s, m.fields) && s.Done? {
      var f :| f in m.fields && f != 18 && f in s.fields && s.fields[f] != m.fields[f];
      assert s.fields[18 := t][f] != m.fields[18 := t][f];
    }
  }

  /** A message the gateway can hand on unchanged: it also has the F18 its trailer spells. */
  lemma BcdIdentity(m: Message)
    requires BcdMessage(m) && |EncodeBcd(m)| >= 12
    requires 18 in m.fields && m.fields[18] == Trailer(EncodeBcd(m))
    ensures BcdCovers(m.fields, InOrder(m.fields.Keys))
    ensures ParseSpec(EncodeBcd(m)) == Parsed(m) <==> AllSurvive(m.fields, InOrder(m.fields.Keys))
  {
    BcdRoundTrip(m);
    assert WithTrailer(m) == m;
  }

  lemma {:induction false} SurvivingPan(fields: map<int, Bytes>, fs: seq<int>)
    requires BcdCovers(fields, fs) && AllSurvive(fields, fs) && 2 in fs
    ensures |fields[2]| == 2 || fields[2] == []
  {
    if fs[0] == 2 {
    } else {
      CoversTail(fields, fs);
      assert fs == [fs[0]] + fs[1..];
      SurvivingPan(fields, fs[1..]);
    }
  }

  /** In particular no message with an account number of ordinary length survives this mode. */
  lemma LongPanDoesNotSurvive(m: Message)
    requires BcdMessage(m) && |EncodeBcd(m)| >= 12
    requires 2 in m.fields && |m.fields[2]| > 2
    ensures ParseSpec(EncodeBcd(m)) != Parsed(WithTrailer(m))
  {
    hide EncodeBcd, ParseSpec, WithTrailer, InOrder, AllSurvive;
    BcdRoundTrip(m);
    OrderedKeys(m.fields.Keys);
    assert 2 in InOrder(m.fields.Keys);
    if AllSurvive(m.fields, InOrder(m.fields.Keys)) {
      SurvivingPan(m.fields, InOrder(m.fields.Keys));
    }
  }

  // ------------------------------------------------------------ the merchant type

  /** Whatever its fields, an accepted message in this mode has the hexadecimal text of its last two bytes as F18. */
  lemma MerchantTypeIsLastBytes(raw: Bytes)
    requires ParseSpec(raw).Parsed? && IsBcd(raw)
    ensures |raw| >= 12 && 18 in ParseSpec(raw).msg.fields
    ensures ParseSpec(raw).msg.fields[18] == EncodeHex([raw[|raw| - 2], raw[|raw| - 1]])
  {
    hide EncodeHex, ScanFields;
    assert raw[|raw| - 2..] == [raw[|raw| - 2], raw[|raw| - 1]];
  }

  lemma {:induction false} EndsWithField(fields: map<int, Bytes>, fs: seq<int>) returns (before: Bytes)
    requires fs != [] && fs[|fs| - 1] != 1 && BcdCovers(fields, fs)
    ensures EncodeBcdFields(fields, fs) == before + EncodeBcdField(fs[|fs| - 1], fields[fs[|fs| - 1]])
  {
    hide EncodeBcdField, BcdFits;
    if |fs| == 1 {
      before := [];
      assert fs[1..] == [];
    } else {
      assert BcdCovers(fields, fs[1..]) by {
        assert fs == [fs[0]] + fs[1..];
      }
      var rest := EndsWithField(fields, fs[1..]);
      before := (if fs[0] == 1 then [] else EncodeBcdField(fs[0], fields[fs[0]])) + rest;
    }
  }

  lemma EndsPacked(f: int, v: Bytes) returns (before: Bytes)
    requires BcdFits(f, v) && v != []
    ensures EncodeBcdField(f, v) == before + Pack(v)
  {
    hide Pack;
    match Def(f).value.kind {
      case Fixed => before := [];
      case LLVar => before := [PackedByte(|v|)];
      case LLLVar => before := [PackedByte(|v| / 100), PackedByte(|v| % 100)];
    }
  }

  lemma WholeOf(h: Bytes, v: Bytes)
    requires |h| == |v| && h[..|v|] == v
    ensures h == v
  {
    assert h[..|v|] == h;
  }

  lemma EvenHalves(n: nat)
    requires n % 2 == 0
    ensures 2 * ((n + 1) / 2) == n
  {
  }

  lemma EvenPack(v: Bytes)
    requires LowerHex(v) && |v| % 2 == 0
    ensures 2 * |Pack(v)| == |v| && EncodeHex(Pack(v)) == v
  {
    hide Pack, EncodeHex, LowerHex;
    PackHex(v);
    EvenHalves(|v|);
    WholeOf(EncodeHex(Pack(v)), v);
  }

  lemma LastOfConcat(x: Bytes, y: Bytes, v: Bytes)
    requires v == x + y
    ensures v[|v| - |y|..] == y
  {
  }

  /** The last two bytes of an even number of digits, four or more, spell the last four. */
  lemma LastFourDigits(v: Bytes)
    requires LowerHex(v) && |v| % 2 == 0 && |v| >= 4
    ensures |Pack(v)| >= 2 && EncodeHex(Pack(v)[|Pack(v)| - 2..]) == v[|v| - 4..]
  {
    EvenPack(v);
    hide Pack, EncodeHex, LowerHex;
    var p := Pack(v);
    var n := |p| - 2;
    assert p == p[..n] + p[n..];
    EncodeHexConcat(p[..n], p[n..]);
    LastOfConcat(EncodeHex(p[..n]), EncodeHex(p[n..]), v);
  }

  /**
    On the encoder's side: when the last field written is of an even number of digits, four or
    more, its last four come back as F18.
   */
  lemma MerchantTypeIsLastDigits(m: Message, f: int)
    requires BcdMessage(m) && |EncodeBcd(m)| >= 12
    requires f in m.fields && forall g :: g in m.fields ==> g <= f
    requires |m.fields[f]| % 2 == 0 && |m.fields[f]| >= 4
    ensures ParseSpec(EncodeBcd(m)).Parsed? ==>
      && 18 in ParseSpec(EncodeBcd(m)).msg.fields
      && ParseSpec(EncodeBcd(m)).msg.fields[18] == m.fields[f][|m.fields[f]| - 4..]
  {
    hide ParseSpec, EncodeBcd, EncodeHex, Def, Pack, BcdMessage;
    var raw, v := EncodeBcd(m), m.fields[f];
    var before := EncodeEnds(m, f);
    var p := Pack(v);
    assert raw[|raw| - 2..] == p[|p| - 2..];
    assert raw[|raw| - 2..] == [raw[|raw| - 2], raw[|raw| - 1]];
    LastFourDigits(v);
    EncodedIsBcd(m);
    if ParseSpec(raw).Parsed? {
      MerchantTypeIsLastBytes(raw);
    }
  }

  lemma Regroup(x: Bytes, a: Bytes, b: Bytes, p: Bytes)
    ensures x + (a + (b + p)) == x + a + b + p
  {
  }

  lemma FieldsEnd(m: Message, f: int) returns (before: Bytes)
    requires BcdMessage(m) && f in m.fields && m.fields[f] != [] && forall g :: g in m.fields ==> g <= f
    ensures BcdCovers(m.fields, InOrder(m.fields.Keys)) && BcdFits(f, m.fields[f])
    ensures EncodeBcdFields(m.fields, InOrder(m.fields.Keys)) == before + EncodeBcdField(f, m.fields[f])
  {
    BcdMessageIsCovered(m);
    FieldRange(m);
    hide EncodeBcdFields, EncodeBcdField, InOrder, BcdCovers, BcdFits, Pack;
    LastInOrder(m.fields.Keys, f);
    before := EndsWithField(m.fields, InOrder(m.fields.Keys));
  }

  lemma EncodeEnds(m: Message, f: int) returns (before: Bytes)
    requires BcdMessage(m) && f in m.fields && m.fields[f] != [] && forall g :: g in m.fields ==> g <= f
    ensures LowerHex(m.fields[f]) && EncodeBcd(m) == before + Pack(m.fields[f])
  {
    hide EncodeBcdFields, EncodeBcdField, InOrder, BcdCovers, Bitmaps, Pack, Def, LowerHex, BcdMessage;
    var a := FieldsEnd(m, f);
    var b := EndsPacked(f, m.fields[f]);
    var x := HeaderOf(m);
    hide EncodeBcd;
    Regroup(x, a, b, Pack(m.fields[f]));
    before := x + a + b;
  }

  lemma HeaderOf(m: Message) returns (x: Bytes)
    requires BcdMessage(m) && BcdCovers(m.fields, InOrder(m.fields.Keys))
    ensures EncodeBcd(m) == x + EncodeBcdFields(m.fields, InOrder(m.fields.Keys))
  {
    hide EncodeBcdFields, InOrder, BcdCovers, Bitmaps, Pack;
    x := Pack(m.mti) + Bitmaps(m.fields.Keys);
  }

  lemma FieldRange(m: Message)
    requires BcdMessage(m)
    ensures forall g :: g in m.fields ==> 1 < g <= 128
  {
    hide LowerHex;
  }

  lemma EncodedIsBcd(m: Message)
    requires BcdMessage(m) && |EncodeBcd(m)| >= 12
    ensures IsBcd(EncodeBcd(m))
  {
    hide EncodeBcdFields, Bitmaps, InOrder;
    assert EncodeBcd(m)[0] == Pack(m.mti)[0];
  }

  lemma LastInOrder(keys: set<int>, f: int)
    requires (forall g :: g in keys ==> 1 < g <= f) && f in keys && f <= 128
    ensures InOrder(keys) != [] && InOrder(keys)[|InOrder(keys)| - 1] == f
  {
    OrderedKeys(keys);
    hide InOrder;
    LastIsGreatest(InOrder(keys), f);
  }

  lemma NoneIsAboveLast(a: seq<int>, i: nat)
    requires Increasing(a) && i < |a|
    ensures a[i] <= a[|a| - 1] && a[|a| - 1] in a
  {
  }

  lemma LastIsGreatest(a: seq<int>, x: int)
    requires Increasing(a) && x in a && forall y :: y in a ==> y <= x
    ensures a[|a| - 1] == x
  {
    var i :| 0 <= i < |a| && a[i] == x;
    NoneIsAboveLast(a, i);
  }
}
