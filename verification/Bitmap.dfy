/**
  Bitmaps: the decoder that lists the fields present, the encoder the repository does not
  have, and the proof that each undoes the other.
 */
module Bitmap {
  import opened Bytes

  /** Value of bit `j` of a byte, counted from the most significant. */
  function Weight(j: int): (w: int)
    requires 0 <= j < 8
    ensures w > 0
  {
    match j
    case 0 => 128
    case 1 => 64
    case 2 => 32
    case 3 => 16
    case 4 => 8
    case 5 => 4
    case 6 => 2
    case 7 => 1
  }

  /** The weights are the powers of two, from the most significant bit down. */
  lemma WeightsHalve(j: int)
    requires 0 <= j < 7
    ensures Weight(j) == 2 * Weight(j + 1) && Weight(7) == 1
  {
  }

  /** Bit k of a byte string, counted from the most significant bit of the first byte. */
  predicate Bit(raw: Bytes, k: int)
    requires 0 <= k < 8 * |raw|
  {
    ByteBit(raw[k / 8], k % 8)
  }

  predicate ByteBit(b: byte, j: int)
    requires 0 <= j < 8
  {
    b as int / Weight(j) % 2 == 1
  }

  lemma BitAt(raw: Bytes, i: nat, j: int)
    requires i < |raw| && 0 <= j < 8
    ensures Bit(raw, 8 * i + j) <==> ByteBit(raw[i], j)
  {
    assert (8 * i + j) / 8 == i && (8 * i + j) % 8 == j;
  }

  /** The members of S in [lo, hi), in increasing order. */
  function Ascending(S: set<int>, lo: int, hi: int): seq<int>
    decreases hi - lo, S
  {
    if lo >= hi then []
    else (if lo in S then [lo] else []) + Ascending(S, lo + 1, hi)
  }

  /** Field f is flagged by a bitmap whose first bit stands for field offset + 1. */
  predicate Announced(raw: Bytes, offset: int, f: int) {
    offset + 1 <= f <= offset + 8 * |raw| && Bit(raw, f - offset - 1)
  }

  function SetBits(raw: Bytes, offset: int): set<int> {
    set f | offset + 1 <= f <= offset + 8 * |raw| && Announced(raw, offset, f)
  }

  lemma FlagAt(raw: Bytes, offset: int, i: nat, j: int)
    requires i < |raw| && 0 <= j < 8
    ensures offset + 1 + 8 * i + j in SetBits(raw, offset) <==> ByteBit(raw[i], j)
  {
    var f := offset + 1 + 8 * i + j;
    assert f - offset - 1 == 8 * i + j;
    BitAt(raw, i, j);
    assert f in SetBits(raw, offset) <==> Announced(raw, offset, f);
  }

  predicate Increasing(a: seq<int>) {
    forall i, j :: 0 <= i < j < |a| ==> a[i] < a[j]
  }

  function BitmapBits(raw: Bytes, offset: int): seq<int> {
    Ascending(SetBits(raw, offset), offset + 1, offset + 1 + 8 * |raw|)
  }

  /** What an ascending list is: strictly increasing, and exactly the members in range. */
  lemma {:induction false} AscendingSpec(S: set<int>, lo: int, hi: int)
    ensures forall f :: f in Ascending(S, lo, hi) <==> lo <= f < hi && f in S
    ensures Increasing(Ascending(S, lo, hi))
    decreases hi - lo
  {
    if lo >= hi {
    } else {
      AscendingSpec(S, lo + 1, hi);
      IncreasingConcat(if lo in S then [lo] else [], Ascending(S, lo + 1, hi));
    }
  }

  lemma IncreasingConcat(a: seq<int>, b: seq<int>)
    requires Increasing(a) && Increasing(b)
    requires forall x, y :: x in a && y in b ==> x < y
    ensures Increasing(a + b)
  {
    var c := a + b;
    forall i, j | 0 <= i < j < |c| ensures c[i] < c[j] {
      if i < |a| <= j {
        assert c[i] in a && c[j] == b[j - |a|] && b[j - |a|] in b;
      }
    }
  }

  lemma {:induction false} AscendingSplit(S: set<int>, lo: int, mid: int, hi: int)
    requires lo <= mid <= hi
    ensures Ascending(S, lo, hi) == Ascending(S, lo, mid) + Ascending(S, mid, hi)
    decreases mid - lo
  {
    if lo >= mid {
    } else {
      AscendingSplit(S, lo + 1, mid, hi);
    }
  }

  lemma {:induction false} AscendingAgrees(S: set<int>, T: set<int>, lo: int, hi: int)
    requires forall f :: lo <= f < hi ==> (f in S <==> f in T)
    ensures Ascending(S, lo, hi) == Ascending(T, lo, hi)
    decreases hi - lo
  {
    if lo >= hi {
    } else {
      AscendingAgrees(S, T, lo + 1, hi);
    }
  }

  /** The part of the list that the first k bits contribute. */
  function ListedBits(raw: Bytes, offset: int, k: nat): seq<int> {
    Ascending(SetBits(raw, offset), offset + 1, offset + 1 + k)
  }

  lemma ListNext(raw: Bytes, offset: int, i: nat, j: int)
    requires i < |raw| && 0 <= j < 8
    ensures ListedBits(raw, offset, 8 * i + j + 1)
         == ListedBits(raw, offset, 8 * i + j) + (if ByteBit(raw[i], j) then [offset + 1 + 8 * i + j] else [])
  {
    FlagAt(raw, offset, i, j);
    var S, f := SetBits(raw, offset), offset + 1 + 8 * i + j;
    AscendingSplit(S, offset + 1, f, f + 1);
    assert Ascending(S, f + 1, f + 1) == [];
  }

  /** The nested loops of the source: bytes outside, bits from 7 down to 0 inside. */
  method ListBits(raw: Bytes, offset: int) returns (bits: seq<int>)
    ensures bits == BitmapBits(raw, offset)
  {
    bits := [];
    for i := 0 to |raw|
      invariant bits == ListedBits(raw, offset, 8 * i)
    {
      var bit := 7;
      while bit >= 0
        invariant -1 <= bit <= 7
        invariant bits == ListedBits(raw, offset, 8 * i + (7 - bit))
      {
        ListNext(raw, offset, i, 7 - bit);
        if ByteBit(raw[i], 7 - bit) {
          var fieldNum := offset + i * 8 + (7 - bit) + 1;
          bits := bits + [fieldNum];
        }
        bit := bit - 1;
      }
    }
  }

  // ---------------------------------------------------------------- encoding

  function Flag(f: int, S: set<int>): int {
    if f in S then 1 else 0
  }

  /** The byte whose eight bits announce fields f .. f + 7. */
  function PackByte(S: set<int>, f: int): byte {
    Byte(128 * Flag(f, S) + 64 * Flag(f + 1, S) + 32 * Flag(f + 2, S) + 16 * Flag(f + 3, S)
         + 8 * Flag(f + 4, S) + 4 * Flag(f + 5, S) + 2 * Flag(f + 6, S) + Flag(f + 7, S))
  }

  function EncodeBitmap(S: set<int>, offset: int, bytes: nat): (raw: Bytes)
    ensures |raw| == bytes
  {
    seq(bytes, i requires 0 <= i < bytes => PackByte(S, offset + 1 + 8 * i))
  }

  lemma PackByteBit(S: set<int>, f: int, j: int)
    requires 0 <= j < 8
    ensures ByteBit(PackByte(S, f), j) <==> f + j in S
  {
    var a, b, c, d := Flag(f, S), Flag(f + 1, S), Flag(f + 2, S), Flag(f + 3, S);
    var e, g, h, i := Flag(f + 4, S), Flag(f + 5, S), Flag(f + 6, S), Flag(f + 7, S);
    var n := PackByte(S, f) as int;
    HighFlags(a, b, c, d, 8 * e + 4 * g + 2 * h + i);
    LowFlags(8 * a + 4 * b + 2 * c + d, e, g, h, i);
    assert ByteBit(PackByte(S, f), j) <==> n / Weight(j) % 2 == 1;
    match j {
      case 0 => assert n / 128 % 2 == a;
      case 1 => assert n / 64 % 2 == b;
      case 2 => assert n / 32 % 2 == c;
      case 3 => assert n / 16 % 2 == d;
      case 4 => assert n / 8 % 2 == e;
      case 5 => assert n / 4 % 2 == g;
      case 6 => assert n / 2 % 2 == h;
      case 7 => assert n % 2 == i;
    }
  }

  lemma HighFlags(a: int, b: int, c: int, d: int, low: int)
    requires 0 <= a <= 1 && 0 <= b <= 1 && 0 <= c <= 1 && 0 <= d <= 1 && 0 <= low < 16
    ensures var n := 128 * a + 64 * b + 32 * c + 16 * d + low;
      n / 128 % 2 == a && n / 64 % 2 == b && n / 32 % 2 == c && n / 16 % 2 == d
  {
  }

  lemma LowFlags(high: nat, e: int, g: int, h: int, i: int)
    requires 0 <= e <= 1 && 0 <= g <= 1 && 0 <= h <= 1 && 0 <= i <= 1
    ensures var n := 16 * high + 8 * e + 4 * g + 2 * h + i;
      n / 8 % 2 == e && n / 4 % 2 == g && n / 2 % 2 == h && n % 2 == i
  {
    var n := 16 * high + 8 * e + 4 * g + 2 * h + i;
    assert n / 2 == 8 * high + 4 * e + 2 * g + h;
    assert n / 4 == 4 * high + 2 * e + g;
    assert n / 8 == 2 * high + e;
  }

  lemma Halve(n: nat)
    requires n < 256
    ensures n / 4 == n / 2 / 2 && n / 8 == n / 4 / 2 && n / 16 == n / 8 / 2
    ensures n / 32 == n / 16 / 2 && n / 64 == n / 32 / 2 && n / 128 == n / 64 / 2
  {
  }

  lemma ByteIsItsBits(n: nat)
    requires n < 256
    ensures n == 128 * (n / 128 % 2) + 64 * (n / 64 % 2) + 32 * (n / 32 % 2) + 16 * (n / 16 % 2)
                 + 8 * (n / 8 % 2) + 4 * (n / 4 % 2) + 2 * (n / 2 % 2) + n % 2
  {
    Halve(n);
    var a, b, c, d, e, g, h := n / 2, n / 4, n / 8, n / 16, n / 32, n / 64, n / 128;
    assert n == 2 * a + n % 2 && a == 2 * b + a % 2 && b == 2 * c + b % 2 && c == 2 * d + c % 2;
    assert d == 2 * e + d % 2 && e == 2 * g + e % 2 && g == 2 * h + g % 2 && h == h % 2;
  }

  lemma FlagIsBit(b: byte, S: set<int>, f: int, j: int)
    requires 0 <= j < 8
    requires f + j in S <==> ByteBit(b, j)
    ensures Flag(f + j, S) == b as int / Weight(j) % 2
  {
  }

  /** Eight flags determine a byte. */
  lemma ByteFromBits(b: byte, S: set<int>, f: int)
    requires forall j :: 0 <= j < 8 ==> (f + j in S <==> ByteBit(b, j))
    ensures PackByte(S, f) == b
  {
    var n := b as int;
    FlagIsBit(b, S, f, 0);
    FlagIsBit(b, S, f, 1);
    FlagIsBit(b, S, f, 2);
    FlagIsBit(b, S, f, 3);
    FlagIsBit(b, S, f, 4);
    FlagIsBit(b, S, f, 5);
    FlagIsBit(b, S, f, 6);
    FlagIsBit(b, S, f, 7);
    ByteIsItsBits(n);
    assert PackByte(S, f) as int == n;
  }

  /** Listing an encoded set gives back the set's members in range, in increasing order. */
  lemma BitsOfEncoded(S: set<int>, offset: int, bytes: nat)
    ensures BitmapBits(EncodeBitmap(S, offset, bytes), offset) == Ascending(S, offset + 1, offset + 1 + 8 * bytes)
    ensures forall k :: 0 <= k < 8 * bytes ==> (Bit(EncodeBitmap(S, offset, bytes), k) <==> offset + 1 + k in S)
  {
    var raw := EncodeBitmap(S, offset, bytes);
    forall k | 0 <= k < 8 * bytes ensures Bit(raw, k) <==> offset + 1 + k in S {
      PackByteBit(S, offset + 1 + 8 * (k / 8), k % 8);
      assert raw[k / 8] == PackByte(S, offset + 1 + 8 * (k / 8));
    }
    AscendingAgrees(SetBits(raw, offset), S, offset + 1, offset + 1 + 8 * bytes);
  }

  lemma RebuildByte(raw: Bytes, offset: int, i: nat)
    requires i < |raw|
    ensures PackByte(SetBits(raw, offset), offset + 1 + 8 * i) == raw[i]
  {
    var f, S := offset + 1 + 8 * i, SetBits(raw, offset);
    forall j | 0 <= j < 8 ensures f + j in S <==> ByteBit(raw[i], j) {
      FlagAt(raw, offset, i, j);
    }
    ByteFromBits(raw[i], S, f);
  }

  lemma EncodeBytewise(S: set<int>, offset: int, raw: Bytes)
    requires forall i :: 0 <= i < |raw| ==> raw[i] == PackByte(S, offset + 1 + 8 * i)
    ensures EncodeBitmap(S, offset, |raw|) == raw
  {
  }

  /** The converse: any byte string is rebuilt from the fields it announces. */
  lemma EncodeOfBits(raw: Bytes, offset: int)
    ensures EncodeBitmap(SetBits(raw, offset), offset, |raw|) == raw
  {
    var S := SetBits(raw, offset);
    forall i | 0 <= i < |raw| ensures raw[i] == PackByte(S, offset + 1 + 8 * i) {
      RebuildByte(raw, offset, i);
    }
    EncodeBytewise(S, offset, raw);
  }

  lemma EncodeAgrees(S: set<int>, T: set<int>, offset: int, bytes: nat)
    requires forall f :: offset + 1 <= f < offset + 1 + 8 * bytes ==> (f in S <==> f in T)
    ensures EncodeBitmap(S, offset, bytes) == EncodeBitmap(T, offset, bytes)
  {
  }

  lemma IncreasingRanges(S: set<int>, T: set<int>, lo: int, mid: int, hi: int)
    ensures Increasing(Ascending(S, lo, mid) + Ascending(T, mid, hi))
  {
    AscendingSpec(S, lo, mid);
    AscendingSpec(T, mid, hi);
    IncreasingConcat(Ascending(S, lo, mid), Ascending(T, mid, hi));
  }

  /** Primary and secondary lists, one after the other, are one increasing list. */
  lemma PrimaryThenSecondary(primary: Bytes, secondary: Bytes)
    requires |primary| == 8
    ensures Increasing(BitmapBits(primary, 0) + BitmapBits(secondary, 64))
  {
    IncreasingRanges(SetBits(primary, 0), SetBits(secondary, 64), 1, 1 + 8 * |primary|, 65 + 8 * |secondary|);
  }

  /** binary.BigEndian.Uint64 */
  function BigEndian(raw: Bytes): nat
    requires |raw| == 8
  {
    raw[0] as int * 0x100_0000_0000_0000 + raw[1] as int * 0x1_0000_0000_0000
    + raw[2] as int * 0x100_0000_0000 + raw[3] as int * 0x1_0000_0000
    + raw[4] as int * 0x100_0000 + raw[5] as int * 0x1_0000
    + raw[6] as int * 0x100 + raw[7] as int
  }

  /** The parser's test of bit 63 of the big-endian word. */
  predicate HasSecondary(primary: Bytes)
    requires |primary| == 8
  {
    BigEndian(primary) / 0x8000_0000_0000_0000 % 2 == 1
  }

  lemma TopBit(b: nat, rest: nat)
    requires b < 256 && rest < 0x100_0000_0000_0000
    ensures (b * 0x100_0000_0000_0000 + rest) / 0x8000_0000_0000_0000 == b / 128
  {
  }

  /** That test agrees with the list: field 1 is announced. */
  lemma HasSecondaryIffField1(primary: Bytes)
    requires |primary| == 8
    ensures HasSecondary(primary) <==> 1 in BitmapBits(primary, 0)
    ensures HasSecondary(primary) <==> Bit(primary, 0)
  {
    assert HasSecondary(primary) <==> Bit(primary, 0) by {
      var b := primary[0] as int;
      TopBit(b, BigEndian(primary) - b * 0x100_0000_0000_0000);
      BitAt(primary, 0, 0);
    }
    AscendingSpec(SetBits(primary, 0), 1, 65);
    assert 1 in SetBits(primary, 0) <==> Announced(primary, 0, 1);
  }
}
