/**
  The ASCII wire format as an encoder, which the repository does not have, and the proof
  that the parser inverts it: on every encodable message, and on every input it accepts.
 */
module AsciiCodec {
  import opened Option
  import opened Bytes
  import opened Text
  import opened FieldTable
  import opened Bitmap
  import opened Iso8583
  import opened ParserLaws

  // ----------------------------------------------------------------- encoder

  /** n in exactly `width` decimal digits. */
  function PadDigits(n: nat, width: nat): (s: Bytes)
    ensures |s| == width && AllDigits(s)
  {
    if width == 0 then [] else PadDigits(n / 10, width - 1) + [(n % 10 + '0' as int) as char]
  }

  function EncodeField(f: int, v: Bytes): (e: Bytes)
    requires Def(f).Some?
    ensures |e| == PrefixWidth(Def(f).value.kind) + |v|
  {
    PadDigits(|v|, PrefixWidth(Def(f).value.kind)) + v
  }

  /** The table covers every listed field and the message has a value for it. */
  predicate Covers(fields: map<int, Bytes>, fs: seq<int>) {
    forall f :: f in fs && f != 1 ==> f in fields && Def(f).Some?
  }

  function EncodeFields(fields: map<int, Bytes>, fs: seq<int>): Bytes
    requires Covers(fields, fs)
  {
    if fs == [] then []
    else if fs[0] == 1 then EncodeFields(fields, fs[1..])
    else EncodeField(fs[0], fields[fs[0]]) + EncodeFields(fields, fs[1..])
  }

  predicate HasHighField(keys: set<int>) {
    exists f :: f in keys && f > 64
  }

  /** The fields the primary bitmap flags: field 1 stands for the secondary bitmap. */
  function Flagged(keys: set<int>): set<int> {
    if HasHighField(keys) then keys + {1} else keys
  }

  function Bitmaps(keys: set<int>): Bytes {
    EncodeBitmap(Flagged(keys), 0, 8) + (if HasHighField(keys) then EncodeBitmap(keys, 64, 8) else [])
  }

  function InOrder(keys: set<int>): seq<int> {
    Ascending(Flagged(keys), 1, 65) + (if HasHighField(keys) then Ascending(keys, 65, 129) else [])
  }

  function Encode(m: Message): Bytes
    requires Covers(m.fields, InOrder(m.fields.Keys))
  {
    m.mti + Bitmaps(m.fields.Keys) + EncodeFields(m.fields, InOrder(m.fields.Keys))
  }

  /** The messages the ASCII format can carry. */
  predicate AsciiMessage(m: Message) {
    && |m.mti| == 4 && AllDigits(m.mti)
    && forall f :: f in m.fields ==> f != 1 && Def(f).Some? && LengthFits(false, Def(f).value, m.fields[f])
  }

  // ------------------------------------------------------------ order of keys

  lemma OrderedKeys(keys: set<int>)
    requires forall f :: f in keys ==> 1 < f <= 128
    ensures forall f :: f in InOrder(keys) <==> f in Flagged(keys)
    ensures Increasing(InOrder(keys))
    ensures Members(InOrder(keys)) == keys
  {
    AscendingSpec(Flagged(keys), 1, 65);
    AscendingSpec(keys, 65, 129);
    IncreasingRanges(Flagged(keys), keys, 1, 65, 129);
    assert InOrder(keys) == Ascending(Flagged(keys), 1, 65)
                            + (if HasHighField(keys) then Ascending(keys, 65, 129) else []);
  }

  lemma MessageIsCovered(m: Message)
    requires AsciiMessage(m)
    ensures Covers(m.fields, InOrder(m.fields.Keys))
  {
    OrderedKeys(m.fields.Keys);
  }

  // -------------------------------------------------------------- round trip

  lemma ValueSnoc(s: string, n: nat)
    requires AllDigits(s)
    ensures var t := s + [(n % 10 + '0' as int) as char]; AllDigits(t) && Value(t) == Value(s) * 10 + n % 10
  {
    var c := (n % 10 + '0' as int) as char;
    assert (s + [c])[..|s|] == s && DigitValue(c) == n % 10;
  }

  lemma {:induction false} PadDigitsValue(n: nat, width: nat)
    requires n < Pow10(width)
    ensures Value(PadDigits(n, width)) == n
  {
    hide Value;
    if width == 0 {
      EmptyValue();
    } else {
      PadDigitsValue(n / 10, width - 1);
      ValueSnoc(PadDigits(n / 10, width - 1), n);
    }
  }

  lemma EmptyValue()
    ensures Value("") == 0
  {
  }

  lemma PlainPrefix(n: nat, width: nat)
    requires (width == 2 && n < 100) || (width == 3 && n < 1000)
    ensures ParseInt(PadDigits(n, width)) == Some(n)
  {
    assert Pow10(1) == 10 && Pow10(2) == 100 && Pow10(3) == 1000;
    hide Value;
    PadDigitsValue(n, width);
    assert IsDigit(PadDigits(n, width)[0]);
  }

  /** The bytes at pos are e. */
  predicate Holds(raw: Bytes, pos: nat, e: Bytes) {
    pos + |e| <= |raw| && raw[pos..pos + |e|] == e
  }

  lemma HoldsNothing(raw: Bytes, pos: nat)
    ensures Holds(raw, pos, []) <==> pos <= |raw|
  {
  }

  lemma HoldsConcat(raw: Bytes, pos: nat, a: Bytes, b: Bytes)
    ensures Holds(raw, pos, a + b) <==> Holds(raw, pos, a) && Holds(raw, pos + |a|, b)
  {
    if pos + |a + b| <= |raw| {
      var all := raw[pos..pos + |a + b|];
      assert all[..|a|] == raw[pos..pos + |a|] && all[|a|..] == raw[pos + |a|..pos + |a| + |b|];
      assert (a + b)[..|a|] == a && (a + b)[|a|..] == b;
      assert all == all[..|a|] + all[|a|..];
    }
  }

  /** One encoded field, wherever it stands, is read back and the cursor lands right behind it. */
  lemma ReadEncodedField(raw: Bytes, pos: nat, f: int, v: Bytes)
    requires f != 1 && Def(f).Some? && LengthFits(false, Def(f).value, v)
    requires Holds(raw, pos, EncodeField(f, v))
    ensures ReadField(raw, false, pos, f) == Got(v, pos + |EncodeField(f, v)|)
  {
    hide Def, ParseInt;
    var def := Def(f).value;
    var w := PrefixWidth(def.kind);
    HoldsConcat(raw, pos, PadDigits(|v|, w), v);
    if !def.kind.Fixed? {
      PlainPrefix(|v|, w);
    }
  }

  lemma {:induction false} ScanEncoded(raw: Bytes, pos: nat, fields: map<int, Bytes>, fs: seq<int>,
                                       acc: map<int, Bytes>)
    requires Covers(fields, fs)
    requires forall f :: f in fields ==> Def(f).Some? && LengthFits(false, Def(f).value, fields[f])
    requires forall f :: f in acc ==> f in fields && acc[f] == fields[f]
    requires Holds(raw, pos, EncodeFields(fields, fs))
    ensures var s := ScanFields(raw, false, fs, pos, acc);
      && s.Done? && s.pos == pos + |EncodeFields(fields, fs)|
      && forall f :: f in s.fields ==> f in fields && s.fields[f] == fields[f]
    decreases |fs|
  {
    hide ReadField, Def, EncodeField, Holds, LengthFits;
    if fs == [] {
    } else {
      assert fs[0] in fs && forall f :: f in fs[1..] ==> f in fs;
      if fs[0] == 1 {
        ScanEncoded(raw, pos, fields, fs[1..], acc);
      } else {
        var v := fields[fs[0]];
        var e := EncodeField(fs[0], v);
        HoldsConcat(raw, pos, e, EncodeFields(fields, fs[1..]));
        ReadEncodedField(raw, pos, fs[0], v);
        ScanEncoded(raw, pos + |e|, fields, fs[1..], acc[fs[0] := v]);
      }
    }
  }

  lemma DecodeBitmaps(raw: Bytes, keys: set<int>)
    requires |raw| >= 4 + |Bitmaps(keys)| && raw[4..4 + |Bitmaps(keys)|] == Bitmaps(keys)
    requires AllDigits(raw[..4]) && forall f :: f in keys ==> f > 1
    ensures ReadHeader(raw) == Header(false, raw[..4], InOrder(keys), 4 + |Bitmaps(keys)|)
  {
    var primary := EncodeBitmap(Flagged(keys), 0, 8);
    assert raw[..4][0] == raw[0] && IsDigit(raw[..4][0]);
    assert raw[4..12] == Bitmaps(keys)[..8] == primary;
    BitsOfEncoded(Flagged(keys), 0, 8);
    AscendingSpec(Flagged(keys), 1, 65);
    if HasHighField(keys) {
      assert raw[12..20] == Bitmaps(keys)[8..] == EncodeBitmap(keys, 64, 8);
      BitsOfEncoded(keys, 64, 8);
    }
  }

  /**
    Round trip: the parser returns exactly the message that was encoded, whatever bytes
    follow it, and leaves the cursor at the end of the encoding.
   */
  lemma AsciiRoundTrip(m: Message, trailing: Bytes)
    requires AsciiMessage(m)
    ensures Covers(m.fields, InOrder(m.fields.Keys))
    ensures ParseSpec(Encode(m) + trailing) == Parsed(m)
    ensures ScanMessage(Encode(m) + trailing).pos == |Encode(m)|
  {
    hide ReadHeader, ReadField, EncodeFields, Def;
    MessageIsCovered(m);
    var keys, fs := m.fields.Keys, InOrder(m.fields.Keys);
    var raw, e, maps := Encode(m) + trailing, EncodeFields(m.fields, fs), Bitmaps(keys);
    assert raw[..4] == m.mti;
    assert raw[4..4 + |maps|] == maps;
    DecodeBitmaps(raw, keys);
    var pos := 4 + |maps|;
    assert Holds(raw, pos, e);
    ScanEncoded(raw, pos, m.fields, fs, map[]);
    ScanKeys(raw, false, fs, pos, map[]);
    OrderedKeys(keys);
    assert ScanFields(raw, false, fs, pos, map[]).fields == m.fields;
  }

  /** Consequently two different messages never share an encoding. */
  lemma EncodeInjective(a: Message, b: Message)
    requires AsciiMessage(a) && AsciiMessage(b)
    requires Covers(a.fields, InOrder(a.fields.Keys)) && Covers(b.fields, InOrder(b.fields.Keys))
    requires Encode(a) == Encode(b)
    ensures a == b
  {
    AsciiRoundTrip(a, []);
    AsciiRoundTrip(b, []);
  }

  // ---------------------------------------------------------------- converse

  /** Every length prefix the scan meets is written with digits only, no sign. */
  predicate PlainPrefixes(raw: Bytes, fs: seq<int>, pos: nat)
    requires pos <= |raw|
  {
    if fs == [] then true
    else if fs[0] == 1 then PlainPrefixes(raw, fs[1..], pos)
    else
      match ReadField(raw, false, pos, fs[0])
      case Got(v, next) =>
        && pos + PrefixWidth(Def(fs[0]).value.kind) <= |raw|
        && AllDigits(raw[pos..pos + PrefixWidth(Def(fs[0]).value.kind)])
        && PlainPrefixes(raw, fs[1..], next)
      case _ => true
  }

  lemma {:induction false} PadOfValue(s: Bytes)
    requires AllDigits(s)
    ensures PadDigits(Value(s), |s|) == s
  {
    if s == [] {
    } else {
      var t := s[..|s| - 1];
      PadOfValue(t);
      assert Value(s) == Value(t) * 10 + DigitValue(s[|s| - 1]);
      assert Value(s) / 10 == Value(t) && Value(s) % 10 == DigitValue(s[|s| - 1]);
      assert s == t + [s[|s| - 1]];
    }
  }

  /** Re-encoding a field reproduces the bytes it was read from exactly when its prefix is plain. */
  lemma ReencodeField(raw: Bytes, pos: nat, f: int)
    requires pos <= |raw| && ReadField(raw, false, pos, f).Got?
    ensures var r, w := ReadField(raw, false, pos, f), PrefixWidth(Def(f).value.kind);
      && r.next == pos + w + |r.value|
      && (Holds(raw, pos, EncodeField(f, r.value)) <==> AllDigits(raw[pos..pos + w]))
  {
    hide Def, Value, PadDigits;
    var r, w := ReadField(raw, false, pos, f), PrefixWidth(Def(f).value.kind);
    var prefix, plain := raw[pos..pos + w], PadDigits(|r.value|, w);
    HoldsConcat(raw, pos, plain, r.value);
    assert Holds(raw, pos + w, r.value);
    if w > 0 && AllDigits(prefix) {
      assert IsDigit(prefix[0]);
      PadOfValue(prefix);
    }
  }

  /**
    Conservation: the cursor has moved by exactly the prefixes and data of the fields read;
    and those bytes are the encoding of the result exactly when every prefix is plain.
   */
  lemma {:induction false} ReencodeFields(raw: Bytes, fs: seq<int>, pos: nat, acc: map<int, Bytes>,
                                          fields: map<int, Bytes>)
    requires pos <= |raw| && Increasing(fs)
    requires ScanFields(raw, false, fs, pos, acc).Done?
    requires ScanFields(raw, false, fs, pos, acc).fields == fields
    ensures Covers(fields, fs)
    ensures ScanFields(raw, false, fs, pos, acc).pos == pos + |EncodeFields(fields, fs)|
    ensures Holds(raw, pos, EncodeFields(fields, fs)) <==> PlainPrefixes(raw, fs, pos)
    decreases |fs|
  {
    hide ReadField, Def, EncodeField, Holds, PrefixWidth, AllDigits, Increasing, Members;
    HoldsNothing(raw, pos);
    if fs == [] {
    } else {
      IncreasingTail(fs);
      assert forall f :: f in fs ==> f == fs[0] || f in fs[1..];
      if fs[0] == 1 {
        ReencodeFields(raw, fs[1..], pos, acc, fields);
      } else {
        var r := ReadField(raw, false, pos, fs[0]);
        ScanFirst(raw, false, fs, pos, acc);
        ReencodeFields(raw, fs[1..], r.next, acc[fs[0] := r.value], fields);
        ReencodeField(raw, pos, fs[0]);
        HoldsConcat(raw, pos, EncodeField(fs[0], r.value), EncodeFields(fields, fs[1..]));
      }
    }
  }

  /** Bit 1 promises a secondary bitmap; the promise is idle when no field above 64 is flagged. */
  predicate SecondaryUsed(fs: seq<int>) {
    1 in fs ==> exists f :: f in fs && f > 64
  }

  lemma MembersRange(fs: seq<int>)
    ensures HasHighField(Members(fs)) <==> exists f :: f in fs && f > 64
  {
    if exists f :: f in fs && f > 64 {
      var f :| f in fs && f > 64;
      assert f in Members(fs);
    }
  }

  /** The list of a header, spelled out in terms of the flags of its two bitmaps. */
  lemma HeaderLists(raw: Bytes)
    requires ReadHeader(raw).Header? && !IsBcd(raw)
    ensures var h, primary := ReadHeader(raw), raw[4..12];
      && h.mti == raw[..4]
      && (1 in h.present <==> 1 in SetBits(primary, 0))
      && (forall f :: f in h.present && f <= 64 <==> f in SetBits(primary, 0))
      && (1 !in h.present ==> h.pos == 12 && h.present == BitmapBits(primary, 0))
      && (1 !in h.present ==> forall f :: f in h.present ==> f <= 64)
      && (1 in h.present ==> h.pos == 20 && |raw| >= 20)
      && (1 in h.present ==> h.present == BitmapBits(primary, 0) + BitmapBits(raw[12..20], 64))
      && (1 in h.present ==> forall f :: f in h.present && f > 64 <==> f in SetBits(raw[12..20], 64))
  {
    var primary := raw[4..12];
    var n := |primary|;
    AscendingSpec(SetBits(primary, 0), 1, 1 + 8 * n);
    assert forall f :: f in SetBits(primary, 0) ==> 1 <= f <= 64;
    if 1 in BitmapBits(primary, 0) {
      var secondary := raw[12..20];
      AscendingSpec(SetBits(secondary, 64), 65, 65 + 8 * |secondary|);
      assert forall f :: f in SetBits(secondary, 64) ==> 65 <= f <= 128;
    }
  }

  /** Flags that agree with a bitmap's on its range list and encode to the same. */
  lemma SameFlags(raw: Bytes, offset: int, S: set<int>)
    requires forall f :: offset + 1 <= f <= offset + 8 * |raw| ==> (f in SetBits(raw, offset) <==> f in S)
    ensures BitmapBits(raw, offset) == Ascending(S, offset + 1, offset + 1 + 8 * |raw|)
    ensures EncodeBitmap(S, offset, |raw|) == raw
  {
    AscendingAgrees(SetBits(raw, offset), S, offset + 1, offset + 1 + 8 * |raw|);
    EncodeAgrees(SetBits(raw, offset), S, offset, |raw|);
    EncodeOfBits(raw, offset);
  }

  lemma PrimaryFlags(raw: Bytes)
    requires ReadHeader(raw).Header? && !IsBcd(raw) && SecondaryUsed(ReadHeader(raw).present)
    ensures var keys, primary := Members(ReadHeader(raw).present), raw[4..12];
      && (1 in ReadHeader(raw).present <==> HasHighField(keys))
      && BitmapBits(primary, 0) == Ascending(Flagged(keys), 1, 65)
      && EncodeBitmap(Flagged(keys), 0, 8) == primary
  {
    hide ReadHeader, BitmapBits, EncodeBitmap, SetBits, HasHighField;
    HeaderLists(raw);
    MembersRange(ReadHeader(raw).present);
    SameFlags(raw[4..12], 0, Flagged(Members(ReadHeader(raw).present)));
  }

  lemma SecondaryFlags(raw: Bytes)
    requires ReadHeader(raw).Header? && !IsBcd(raw) && 1 in ReadHeader(raw).present
    ensures var keys := Members(ReadHeader(raw).present);
      && |raw| >= 20 && BitmapBits(raw[12..20], 64) == Ascending(keys, 65, 129)
      && EncodeBitmap(keys, 64, 8) == raw[12..20]
  {
    hide ReadHeader, BitmapBits, EncodeBitmap, SetBits;
    HeaderLists(raw);
    SameFlags(raw[12..20], 64, Members(ReadHeader(raw).present));
  }

  /** When bit 1 is in use, the header is the canonical one for the fields it announces. */
  lemma CanonicalHeader(raw: Bytes)
    requires ReadHeader(raw).Header? && !IsBcd(raw) && SecondaryUsed(ReadHeader(raw).present)
    ensures var h := ReadHeader(raw);
      var keys := Members(h.present);
      h.present == InOrder(keys) && Holds(raw, 4, Bitmaps(keys)) && h.pos == 4 + |Bitmaps(keys)|
  {
    hide ReadHeader, BitmapBits, EncodeBitmap, SetBits, Ascending, SecondaryUsed, HasHighField;
    HeaderLists(raw);
    PrimaryFlags(raw);
    var keys := Members(ReadHeader(raw).present);
    assert Holds(raw, 4, EncodeBitmap(Flagged(keys), 0, 8));
    if 1 in ReadHeader(raw).present {
      SecondaryFlags(raw);
      HoldsConcat(raw, 4, EncodeBitmap(Flagged(keys), 0, 8), EncodeBitmap(keys, 64, 8));
    }
  }

  lemma FirstIsMember(a: seq<int>)
    ensures a == [] || a[0] in a
  {
  }

  lemma NoSecondaryBits(raw: Bytes)
    requires ReadHeader(raw).Header? && !IsBcd(raw) && !SecondaryUsed(ReadHeader(raw).present)
    ensures |raw| >= 20 && BitmapBits(raw[12..20], 64) == []
  {
    hide ReadHeader;
    HeaderLists(raw);
    AscendingSpec(SetBits(raw[12..20], 64), 65, 65 + 8 * |raw[12..20]|);
    FirstIsMember(BitmapBits(raw[12..20], 64));
  }

  lemma IdleList(raw: Bytes)
    requires ReadHeader(raw).Header? && !IsBcd(raw) && !SecondaryUsed(ReadHeader(raw).present)
    ensures var keys := Members(ReadHeader(raw).present);
      !HasHighField(keys) && ReadHeader(raw).pos == 20 && ReadHeader(raw).present == [1] + InOrder(keys)
  {
    hide ReadHeader, SetBits;
    HeaderLists(raw);
    NoSecondaryBits(raw);
    var h, n := ReadHeader(raw), |raw[4..12]|;
    var keys, S := Members(h.present), SetBits(raw[4..12], 0);
    MembersRange(h.present);
    assert h.present == Ascending(S, 1, 1 + 8 * n) == [1] + Ascending(S, 2, 1 + 8 * n);
    AscendingAgrees(S, keys, 2, 1 + 8 * n);
    assert InOrder(keys) == Ascending(keys, 1, 1 + 8 * n) == Ascending(keys, 2, 1 + 8 * n);
  }

  /** When bit 1 is idle, the canonical encoding is eight bytes shorter than the input. */
  lemma IdleHeader(raw: Bytes, fields: map<int, Bytes>)
    requires ReadHeader(raw).Header? && !IsBcd(raw) && !SecondaryUsed(ReadHeader(raw).present)
    requires Covers(fields, ReadHeader(raw).present)
    ensures var h := ReadHeader(raw);
      var keys := Members(h.present);
      && h.pos == 20 && |Bitmaps(keys)| == 8
      && Covers(fields, InOrder(keys)) && EncodeFields(fields, InOrder(keys)) == EncodeFields(fields, h.present)
  {
    hide ReadHeader, InOrder, SecondaryUsed, EncodeField;
    IdleList(raw);
    var h := ReadHeader(raw);
    assert h.present[1..] == InOrder(Members(h.present));
  }

  /**
    Conservation: on every accepted ASCII input the result is an encodable message, and the
    cursor has consumed the header plus exactly the prefixes and data of the fields read.
   */
  lemma AsciiConservation(raw: Bytes)
    requires ParseSpec(raw).Parsed? && !IsBcd(raw)
    ensures var m, h, end := ParseSpec(raw).msg, ReadHeader(raw), ScanMessage(raw).pos;
      && h.Header? && m.mti == raw[..4] && ScanMessage(raw).Done?
      && AsciiMessage(m) && m.fields.Keys == Members(h.present)
      && Covers(m.fields, h.present)
      && end == h.pos + |EncodeFields(m.fields, h.present)| <= |raw|
      && (Holds(raw, h.pos, EncodeFields(m.fields, h.present)) <==> PlainPrefixes(raw, h.present, h.pos))
  {
    hide ReadHeader, ReadField, EncodeFields, PlainPrefixes, Def;
    var h, m := ReadHeader(raw), ParseSpec(raw).msg;
    HeaderIncreasing(raw);
    ParsedShape(raw);
    HeaderMti(raw);
    OneIsNotAMember(h.present);
    assert AsciiMessage(m);
    ReencodeFields(raw, h.present, h.pos, map[], m.fields);
  }

  lemma OneIsNotAMember(fs: seq<int>)
    ensures 1 !in Members(fs)
  {
  }

  /**
    Converse: re-encoding the result of an accepted input gives exactly the consumed bytes
    if and only if every length prefix is plain digits and bit 1 is set only when a field
    above 64 is present.
   */
  lemma AsciiConverse(raw: Bytes)
    requires ParseSpec(raw).Parsed? && !IsBcd(raw)
    ensures var m, h, end := ParseSpec(raw).msg, ReadHeader(raw), ScanMessage(raw).pos;
      && Covers(m.fields, InOrder(m.fields.Keys)) && end <= |raw|
      && (Encode(m) == raw[..end] <==> PlainPrefixes(raw, h.present, h.pos) && SecondaryUsed(h.present))
  {
    hide *;
    var h, m := ReadHeader(raw), ParseSpec(raw).msg;
    AsciiConservation(raw);
    MessageIsCovered(m);
    EncodeLength(m);
    if SecondaryUsed(h.present) {
      CanonicalHeader(raw);
      EncodeHolds(raw, m, h.present);
    } else {
      IdleHeader(raw, m.fields);
      assert |Encode(m)| == ScanMessage(raw).pos - 8;
    }
  }

  // --------------------------------------------------------- exact language

  /** An accepted ASCII input with nothing in it that encoding would write otherwise. */
  predicate Canonical(raw: Bytes) {
    && ParseSpec(raw).Parsed? && !IsBcd(raw)
    && PlainPrefixes(raw, ReadHeader(raw).present, ReadHeader(raw).pos) && SecondaryUsed(ReadHeader(raw).present)
  }

  predicate EncodedAs(raw: Bytes, m: Message, trailing: Bytes) {
    AsciiMessage(m) && Covers(m.fields, InOrder(m.fields.Keys)) && raw == Encode(m) + trailing
  }

  /** The canonical inputs are exactly the encodings of messages, followed by anything at all. */
  lemma CanonicalIffEncoding(raw: Bytes)
    ensures Canonical(raw) <==> exists m, trailing :: EncodedAs(raw, m, trailing)
  {
    hide *;
    if Canonical(raw) {
      CanonicalIsEncoding(raw);
    }
    forall m, trailing | EncodedAs(raw, m, trailing) ensures Canonical(raw) {
      EncodingIsCanonical(raw, m, trailing);
    }
  }

  lemma CanonicalIsEncoding(raw: Bytes)
    requires Canonical(raw)
    ensures exists m, trailing :: EncodedAs(raw, m, trailing)
  {
    hide PlainPrefixes, SecondaryUsed, ReadHeader, ScanMessage, ParseSpec, Encode, Covers, InOrder;
    AsciiConservation(raw);
    AsciiConverse(raw);
    var m, end := ParseSpec(raw).msg, ScanMessage(raw).pos;
    assert raw == raw[..end] + raw[end..];
    assert EncodedAs(raw, m, raw[end..]);
  }

  lemma EncodingIsCanonical(raw: Bytes, m: Message, trailing: Bytes)
    requires EncodedAs(raw, m, trailing)
    ensures Canonical(raw)
  {
    hide PlainPrefixes, SecondaryUsed, ReadHeader, ScanMessage, ParseSpec, Covers, InOrder, EncodeFields, Bitmaps;
    AsciiRoundTrip(m, trailing);
    assert raw[0] == m.mti[0];
    AsciiConverse(raw);
    assert raw[..|Encode(m)|] == Encode(m);
  }

  lemma EncodeLength(m: Message)
    requires AsciiMessage(m) && Covers(m.fields, InOrder(m.fields.Keys))
    ensures |Encode(m)| == 4 + |Bitmaps(m.fields.Keys)| + |EncodeFields(m.fields, InOrder(m.fields.Keys))|
  {
    hide Bitmaps, EncodeFields, InOrder, Covers;
  }

  lemma EncodeHolds(raw: Bytes, m: Message, fs: seq<int>)
    requires AsciiMessage(m) && fs == InOrder(m.fields.Keys) && Covers(m.fields, fs)
    requires |raw| >= 4 && raw[..4] == m.mti && Holds(raw, 4, Bitmaps(m.fields.Keys))
    requires 4 + |Bitmaps(m.fields.Keys)| + |EncodeFields(m.fields, fs)| <= |raw|
    ensures |Encode(m)| <= |raw|
    ensures Encode(m) == raw[..|Encode(m)|] <==>
      Holds(raw, 4 + |Bitmaps(m.fields.Keys)|, EncodeFields(m.fields, fs))
  {
    hide Bitmaps, EncodeFields, InOrder, Covers;
    var maps, data := Bitmaps(m.fields.Keys), EncodeFields(m.fields, fs);
    HoldsConcat(raw, 0, m.mti, maps);
    HoldsConcat(raw, 0, m.mti + maps, data);
    assert Holds(raw, 0, m.mti);
    assert Holds(raw, 0, m.mti + maps + data) <==> Encode(m) == raw[..|Encode(m)|];
  }

  lemma HeaderMti(raw: Bytes)
    requires ReadHeader(raw).Header? && !IsBcd(raw)
    ensures |ReadHeader(raw).mti| == 4 && AllDigits(ReadHeader(raw).mti) && ReadHeader(raw).mti == raw[..4]
  {
  }
}
