/**
  The ISO 8583 parser: a cursor that walks the message once, in one of two wire modes.

  `Parse` is the parser in the source's own form. It is proved equal to `ParseSpec`, which
  reads one field at a time, and everything else is proved about `ParseSpec`.
 */
module Iso8583 {
  import opened Option
  import opened Bytes
  import opened Text
  import opened FieldTable
  import opened Bitmap

  datatype Message = Message(mti: Bytes, fields: map<int, Bytes>)

  datatype ParseError =
    | TooShort
    | BadMti
    | SecondaryMissing
    | UnknownField(f: int)
    | FixedShort(f: int)
    | PrefixShort(f: int)
    | BadPrefix(f: int)
    | TooLong(f: int)
    | DataShort(f: int)

  /** Panicked is Go's run-time panic on an invalid slice. */
  datatype Outcome = Parsed(msg: Message) | Rejected(error: ParseError) | Panicked

  // --------------------------------------------------------------- one field

  datatype FieldRead = Got(value: Bytes, next: nat) | Bad(error: ParseError) | Crash

  function DecodeBcd(bytes: Bytes, digits: nat): Bytes {
    var val := EncodeHex(bytes);
    if |val| > digits then val[..digits] else val
  }

  /** The two decimal digits of a packed length byte. */
  function Packed(b: byte): nat {
    b as int / 16 * 10 + b as int % 16
  }

  function PrefixWidth(kind: Kind): nat {
    match kind
    case Fixed => 0
    case LLVar => 2
    case LLLVar => 3
  }

  function ReadAscii(raw: Bytes, pos: nat, f: int, def: FieldDef): FieldRead
    requires pos <= |raw|
  {
    if def.kind.Fixed? then
      if pos + def.length > |raw| then Bad(FixedShort(f)) else Got(raw[pos..pos + def.length], pos + def.length)
    else
      var start := pos + PrefixWidth(def.kind);
      if start > |raw| then Bad(PrefixShort(f))
      else
        match ParseInt(raw[pos..start])
        case None => Bad(BadPrefix(f))
        case Some(n) =>
          if def.kind.LLVar? && n > def.length then Bad(TooLong(f))
          else if start + n > |raw| then Bad(DataShort(f))
          else if n < 0 then Crash
          else Got(raw[start..start + n], start + n)
  }

  /** Data of `bytes` bytes at pos, clipped at the limit. */
  function TakeBcd(raw: Bytes, pos: nat, limit: int, bytes: nat, digits: nat): FieldRead
    requires pos <= limit <= |raw|
  {
    var n := if pos + bytes > limit then limit - pos else bytes;
    if n <= 0 then Got([], pos) else Got(DecodeBcd(raw[pos..pos + n], digits), pos + n)
  }

  function ReadBcdData(raw: Bytes, pos: nat, limit: int, f: int, def: FieldDef): FieldRead
    requires pos < limit <= |raw|
  {
    match def.kind
    case Fixed =>
      var bytes := (def.length + 1) / 2;
      TakeBcd(raw, pos, limit, bytes, if f == 11 && pos + bytes >= limit then 2 * (limit - pos) else def.length)
    case LLVar =>
      var n := Packed(raw[pos]);
      if n > def.length then Bad(TooLong(f)) else TakeBcd(raw, pos + 1, limit, (n + 1) / 2, n)
    case LLLVar =>
      if pos + 2 > limit then Bad(PrefixShort(f))
      else
        var n := Packed(raw[pos]) * 100 + Packed(raw[pos + 1]);
        if n > def.length then Bad(TooLong(f)) else TakeBcd(raw, pos + 2, limit, (n + 1) / 2, n)
  }

  /** F11 may not use the last two bytes of the message; F2 is absent unless a length byte 2 follows. */
  function BcdLimit(raw: Bytes, f: int): int {
    if f == 11 then |raw| - 2 else |raw|
  }

  function ReadBcd(raw: Bytes, pos: nat, f: int, def: FieldDef): FieldRead
    requires pos <= |raw|
  {
    if f == 2 && (pos >= |raw| || raw[pos] as int != 2) then Got([], pos)
    else if pos >= BcdLimit(raw, f) then Got([], pos)
    else ReadBcdData(raw, pos, BcdLimit(raw, f), f, def)
  }

  function ReadField(raw: Bytes, bcd: bool, pos: nat, f: int): (r: FieldRead)
    requires pos <= |raw|
    ensures r.Got? ==> Def(f).Some? && pos <= r.next <= |raw|
    ensures bcd ==> !r.Crash?
  {
    match Def(f)
    case None => Bad(UnknownField(f))
    case Some(def) => if bcd then ReadBcd(raw, pos, f, def) else ReadAscii(raw, pos, f, def)
  }

  // -------------------------------------------------------------- all fields

  datatype Scan = Done(fields: map<int, Bytes>, pos: nat) | Failed(error: ParseError) | Crashed

  /** Reads the listed fields in order; field 1 is the bitmap itself. */
  function ScanFields(raw: Bytes, bcd: bool, fs: seq<int>, pos: nat, acc: map<int, Bytes>): (s: Scan)
    requires pos <= |raw|
    ensures s.Done? ==> pos <= s.pos <= |raw|
    ensures bcd ==> !s.Crashed?
  {
    if fs == [] then Done(acc, pos)
    else if fs[0] == 1 then ScanFields(raw, bcd, fs[1..], pos, acc)
    else
      match ReadField(raw, bcd, pos, fs[0])
      case Bad(e) => Failed(e)
      case Crash => Crashed
      case Got(v, next) => ScanFields(raw, bcd, fs[1..], next, acc[fs[0] := v])
  }

  datatype HeaderRead = Header(bcd: bool, mti: Bytes, present: seq<int>, pos: nat) | BadHeader(error: ParseError)

  predicate IsBcd(raw: Bytes)
    requires raw != []
  {
    (raw[0] as int) < 0x20 || raw[0] as int > 0x7e
  }

  function ReadHeader(raw: Bytes): (h: HeaderRead)
    ensures h.Header? ==> 10 <= h.pos <= |raw| && |raw| >= 12 && h.bcd == IsBcd(raw)
  {
    if |raw| < 12 then BadHeader(TooShort)
    else
      var bcd := IsBcd(raw);
      var mti := if bcd then EncodeHex(raw[..2]) else raw[..4];
      if !bcd && !AllDigits(mti) then BadHeader(BadMti)
      else
        var pos := if bcd then 10 else 12;
        var primary := raw[pos - 8..pos];
        var present := BitmapBits(primary, 0);
        if 1 !in present then Header(bcd, mti, present, pos)
        else if |raw| < pos + 8 then BadHeader(SecondaryMissing)
        else Header(bcd, mti, present + BitmapBits(raw[pos..pos + 8], 64), pos + 8)
  }

  function ScanMessage(raw: Bytes): Scan {
    match ReadHeader(raw)
    case BadHeader(e) => Failed(e)
    case Header(bcd, mti, present, pos) => ScanFields(raw, bcd, present, pos, map[])
  }

  /** The last two bytes of a BCD message stand for field 18. */
  function Trailer(raw: Bytes): Bytes
    requires |raw| >= 2
  {
    DecodeBcd(raw[|raw| - 2..], 4)
  }

  function ParseSpec(raw: Bytes): Outcome {
    match ReadHeader(raw)
    case BadHeader(e) => Rejected(e)
    case Header(bcd, mti, present, pos) =>
      match ScanFields(raw, bcd, present, pos, map[])
      case Failed(e) => Rejected(e)
      case Crashed => Panicked
      case Done(fields, _) => Parsed(Message(mti, if bcd then fields[18 := Trailer(raw)] else fields))
  }

  // -------------------------------------------------- the parser as it is run

  method DecodeBcdText(bytes: Bytes, digits: nat) returns (val: Bytes)
    ensures val == DecodeBcd(bytes, digits)
  {
    var sb: Bytes := [];
    for i := 0 to |bytes|
      invariant sb == EncodeHex(bytes[..i])
    {
      var b := bytes[i];
      sb := sb + [HexDigit(b as int / 16), HexDigit(b as int % 16)];
      EncodeHexConcat(bytes[..i], [b]);
      assert EncodeHex([b]) == [HexDigit(b as int / 16), HexDigit(b as int % 16)] + EncodeHex([]);
      assert bytes[..i + 1] == bytes[..i] + [b];
    }
    assert bytes[..|bytes|] == bytes;
    val := sb;
    if |val| > digits {
      val := val[..digits];
    }
  }

  method TakeBcdData(raw: Bytes, pos: nat, limit: int, wanted: nat, digits: nat) returns (r: FieldRead)
    requires pos <= limit <= |raw|
    ensures r == TakeBcd(raw, pos, limit, wanted, digits)
  {
    var bytes: int := wanted;
    if pos + bytes > limit {
      bytes := limit - pos;
    }
    if bytes <= 0 {
      return Got([], pos);
    }
    var val := DecodeBcdText(raw[pos..pos + bytes], digits);
    return Got(val, pos + bytes);
  }

  method ReadBcdKind(raw: Bytes, pos: nat, limit: int, f: int, def: FieldDef) returns (r: FieldRead)
    requires pos < limit <= |raw|
    ensures r == ReadBcdData(raw, pos, limit, f, def)
  {
    hide TakeBcd, Packed;
    match def.kind {
      case Fixed =>
        var bytes, digits := (def.length + 1) / 2, def.length;
        if pos + bytes >= limit && f == 11 {
          digits := 2 * (limit - pos);
        }
        r := TakeBcdData(raw, pos, limit, bytes, digits);
      case LLVar =>
        var digits := Packed(raw[pos]);
        if digits > def.length {
          return Bad(TooLong(f));
        }
        var bytes := (digits + 1) / 2;
        r := TakeBcdData(raw, pos + 1, limit, bytes, digits);
      case LLLVar =>
        if pos + 2 > limit {
          return Bad(PrefixShort(f));
        }
        var digits := Packed(raw[pos]) * 100 + Packed(raw[pos + 1]);
        if digits > def.length {
          return Bad(TooLong(f));
        }
        var bytes := (digits + 1) / 2;
        r := TakeBcdData(raw, pos + 2, limit, bytes, digits);
    }
  }

  /** The BCD branch of the field loop. */
  method ReadBcdField(raw: Bytes, pos: nat, f: int, def: FieldDef) returns (r: FieldRead)
    requires pos <= |raw|
    ensures r == ReadBcd(raw, pos, f, def)
  {
    if f == 2 {
      if pos >= |raw| || raw[pos] as int != 0x02 {
        return Got([], pos);
      }
    }
    var limit := |raw|;
    if f == 11 {
      limit := |raw| - 2;
    }
    if pos >= limit {
      return Got([], pos);
    }
    r := ReadBcdKind(raw, pos, limit, f, def);
  }

  /** The ASCII branch of the field loop; the one slice that can be invalid is reported as a crash. */
  method ReadAsciiField(raw: Bytes, pos0: nat, f: int, def: FieldDef) returns (r: FieldRead)
    requires pos0 <= |raw|
    ensures r == ReadAscii(raw, pos0, f, def)
  {
    var pos := pos0;
    match def.kind {
      case Fixed =>
        if pos + def.length > |raw| {
          return Bad(FixedShort(f));
        }
        return Got(raw[pos..pos + def.length], pos + def.length);
      case LLVar =>
        if pos + 2 > |raw| {
          return Bad(PrefixShort(f));
        }
        var dataLen := ParseInt(raw[pos..pos + 2]);
        if dataLen.None? {
          return Bad(BadPrefix(f));
        }
        pos := pos + 2;
        if dataLen.value > def.length {
          return Bad(TooLong(f));
        }
        if pos + dataLen.value > |raw| {
          return Bad(DataShort(f));
        }
        if dataLen.value < 0 {
          return Crash;
        }
        return Got(raw[pos..pos + dataLen.value], pos + dataLen.value);
      case LLLVar =>
        if pos + 3 > |raw| {
          return Bad(PrefixShort(f));
        }
        var dataLen := ParseInt(raw[pos..pos + 3]);
        if dataLen.None? {
          return Bad(BadPrefix(f));
        }
        pos := pos + 3;
        if pos + dataLen.value > |raw| {
          return Bad(DataShort(f));
        }
        if dataLen.value < 0 {
          return Crash;
        }
        return Got(raw[pos..pos + dataLen.value], pos + dataLen.value);
    }
  }

  /** The source tests bit 63 of the big-endian word; the list has field 1 exactly then. */
  method SecondaryIndicated(primary: Bytes) returns (b: bool)
    requires |primary| == 8
    ensures b <==> 1 in BitmapBits(primary, 0)
  {
    HasSecondaryIffField1(primary);
    b := BigEndian(primary) / 0x8000_0000_0000_0000 % 2 == 1;
  }

  /** The header: mode, MTI, and the list of present fields from one or two bitmaps. */
  method ParseHeader(raw: Bytes) returns (h: HeaderRead)
    ensures h == ReadHeader(raw)
  {
    if |raw| < 12 {
      return BadHeader(TooShort);
    }
    var isBcd := (raw[0] as int) < 0x20 || raw[0] as int > 0x7e;
    var pos, mti := 0, [];
    var primary: Bytes;
    if isBcd {
      mti := DecodeBcdText(raw[..2], 4);
      pos := pos + 2;
    } else {
      mti := raw[pos..pos + 4];
      if !AllDigits(mti) {
        return BadHeader(BadMti);
      }
      pos := pos + 4;
    }
    primary := raw[pos..pos + 8];
    pos := pos + 8;
    var present := ListBits(primary, 0);
    var hasSecondary := SecondaryIndicated(primary);
    if hasSecondary {
      if |raw| < pos + 8 {
        return BadHeader(SecondaryMissing);
      }
      var more := ListBits(raw[pos..pos + 8], 64);
      pos := pos + 8;
      present := present + more;
    }
    return Header(isBcd, mti, present, pos);
  }

  /**
    The parser. The cursor never leaves the message: it is past the header and inside `raw`
    at every iteration, and every slice taken is in range.
   */
  method Parse(raw: Bytes) returns (r: Outcome)
    ensures r == ParseSpec(raw)
  {
    var h := ParseHeader(raw);
    if h.BadHeader? {
      return Rejected(h.error);
    }
    var Header(isBcd, mti, present, pos) := h;
    var fields: map<int, Bytes> := map[];
    ghost var all := ScanFields(raw, isBcd, present, pos, fields);
    var i := 0;
    while i < |present|
      invariant 0 <= i <= |present|
      invariant h.pos <= pos <= |raw|
      invariant ScanFields(raw, isBcd, present[i..], pos, fields) == all
    {
      var f := present[i];
      i := i + 1;
      assert present[i - 1..][1..] == present[i..];
      if f == 1 {
        continue;
      }
      var def := Def(f);
      if def.None? {
        return Rejected(UnknownField(f));
      }
      var r;
      if isBcd {
        r := ReadBcdField(raw, pos, f, def.value);
      } else {
        r := ReadAsciiField(raw, pos, f, def.value);
      }
      assert r == ReadField(raw, isBcd, pos, f);
      match r {
        case Bad(e) => return Rejected(e);
        case Crash => return Panicked;
        case Got(v, next) => fields, pos := fields[f := v], next;
      }
    }
    if isBcd {
      if |raw| >= 2 {
        var t := DecodeBcdText(raw[|raw| - 2..], 4);
        fields := fields[18 := t];
      }
    }
    return Parsed(Message(mti, fields));
  }
}
