/**
  The hash-chained ledger: its rows, its store, and what its head commits to. The hash is a
  parameter with 32-byte results; nothing is assumed about collisions. (Section 6.2 of
  FIPS 180-4 defines SHA-256, section 8 of RFC 4648 the hexadecimal text.)
 */
module Ledger {
  import opened Option
  import opened Bytes

  type Digest = d: Bytes | |d| == 32 witness seq(32, _ => 'a')
  type Hash = Bytes -> Digest

  datatype SignatureEntry = SignatureEntry(
    witnessName: string, fingerprint: string, signature: string, timestamp: Bytes)

  datatype Bundle = Bundle(
    bundleId: string, originalHash: string, enrichedHash: string, prevChainHash: string, chainHash: string,
    signatures: seq<SignatureEntry>, quorumMet: bool)

  /** A row of coordination_events; the bundle stands for its JSON column. */
  datatype Event = Event(
    bundleId: string, originalHash: string, enrichedHash: string, chainHash: string, prevChainHash: string,
    bundle: Bundle, quorumMet: bool)

  function EventOf(b: Bundle): Event {
    Event(b.bundleId, b.originalHash, b.enrichedHash, b.chainHash, b.prevChainHash, b, b.quorumMet)
  }

  function ZeroDigest(): Digest {
    seq(32, _ => '\0')
  }

  /** 64 zero digits: the previous hash of the first event. */
  function Genesis(): string {
    EncodeHex(ZeroDigest())
  }

  /** The hexadecimal text of some digest. */
  predicate IsHexDigest(s: string) {
    |s| == 64 && LowerHex(s)
  }

  function Preimage(original: string, enriched: string, prev: string): Bytes {
    DecodeHex(original) + DecodeHex(enriched) + DecodeHex(prev)
  }

  /** coordinationHash: the digest that is signed; its hexadecimal text is stored. */
  function CoordinationHash(H: Hash, original: string, enriched: string, prev: string): Digest {
    H(Preimage(original, enriched, prev))
  }

  function Head(rows: seq<Event>): string {
    if rows == [] then Genesis() else rows[|rows| - 1].chainHash
  }

  /** A row that correctly extends a ledger whose head is prev. */
  predicate Linked(H: Hash, e: Event, prev: string) {
    && IsHexDigest(e.originalHash) && IsHexDigest(e.enrichedHash) && IsHexDigest(prev)
    && e.prevChainHash == prev
    && e.chainHash == EncodeHex(CoordinationHash(H, e.originalHash, e.enrichedHash, prev))
  }

  /** Event 0 follows the genesis hash, event i follows event i - 1. */
  predicate ValidChain(H: Hash, rows: seq<Event>) {
    forall i :: 0 <= i < |rows| ==> Linked(H, rows[i], Head(rows[..i]))
  }

  predicate UniqueIds(rows: seq<Event>) {
    forall i, j :: 0 <= i < j < |rows| ==> rows[i].bundleId != rows[j].bundleId
  }

  predicate HasId(rows: seq<Event>, id: string) {
    exists i :: 0 <= i < |rows| && rows[i].bundleId == id
  }

  // ------------------------------------------------------------------ hex text

  lemma HexPair(c: char, d: char)
    requires IsLowerHex(c) && IsLowerHex(d)
    ensures Nibble(c).Some? && Nibble(d).Some?
    ensures HexDigit(Nibble(c).value) == c && HexDigit(Nibble(d).value) == d
    ensures var b := Byte(Nibble(c).value * 16 + Nibble(d).value);
      b as int / 16 == Nibble(c).value && b as int % 16 == Nibble(d).value
  {
  }

  lemma {:induction false} EncodeDecode(s: string)
    requires LowerHex(s) && |s| % 2 == 0
    ensures 2 * |DecodeHex(s)| == |s| && EncodeHex(DecodeHex(s)) == s
    decreases |s|
  {
    if s == "" {
    } else {
      HexPair(s[0], s[1]);
      EncodeDecode(s[2..]);
      var d := DecodeHex(s);
      assert d[1..] == DecodeHex(s[2..]);
      assert s == [s[0], s[1]] + s[2..];
    }
  }

  lemma HexDigestBytes(s: string)
    requires IsHexDigest(s)
    ensures |DecodeHex(s)| == 32 && EncodeHex(DecodeHex(s)) == s
  {
    EncodeDecode(s);
  }

  lemma DigestText(d: Digest)
    ensures IsHexDigest(EncodeHex(d)) && DecodeHex(EncodeHex(d)) == d
  {
    HexRoundTrip(d);
  }

  lemma GenesisIsZeros()
    ensures IsHexDigest(Genesis()) && DecodeHex(Genesis()) == ZeroDigest()
    ensures forall i :: 0 <= i < 64 ==> Genesis()[i] == '0'
  {
    DigestText(ZeroDigest());
    HexOfZeros(ZeroDigest());
  }

  lemma {:induction false} HexOfZeros(bs: Bytes)
    requires forall i :: 0 <= i < |bs| ==> bs[i] == '\0'
    ensures forall i :: 0 <= i < |EncodeHex(bs)| ==> EncodeHex(bs)[i] == '0'
  {
    if bs == [] {
    } else {
      HexOfZeros(bs[1..]);
      assert EncodeHex(bs) == [HexDigit(0), HexDigit(0)] + EncodeHex(bs[1..]);
    }
  }

  // -------------------------------------------------------------- appending

  lemma HeadIsHex(H: Hash, rows: seq<Event>)
    requires ValidChain(H, rows)
    ensures IsHexDigest(Head(rows))
  {
    if rows == [] {
      GenesisIsZeros();
    } else {
      var e := rows[|rows| - 1];
      DigestText(CoordinationHash(H, e.originalHash, e.enrichedHash, e.prevChainHash));
      assert Linked(H, rows[|rows| - 1], Head(rows[..|rows| - 1]));
    }
  }

  lemma AppendKeepsChain(H: Hash, rows: seq<Event>, e: Event)
    requires ValidChain(H, rows) && Linked(H, e, Head(rows))
    ensures ValidChain(H, rows + [e])
  {
    hide Linked, Head;
    var all := rows + [e];
    forall i | 0 <= i < |all| ensures Linked(H, all[i], Head(all[..i])) {
      if i < |rows| {
        assert all[..i] == rows[..i];
      } else {
        assert all[..i] == rows;
      }
    }
  }

  lemma DropLastKeepsChain(H: Hash, rows: seq<Event>)
    requires ValidChain(H, rows) && rows != []
    ensures ValidChain(H, rows[..|rows| - 1])
    ensures Linked(H, rows[|rows| - 1], Head(rows[..|rows| - 1]))
  {
    hide Linked, Head;
    var front := rows[..|rows| - 1];
    forall i | 0 <= i < |front| ensures Linked(H, front[i], Head(front[..i])) {
      assert front[..i] == rows[..i];
    }
  }

  // --------------------------------------------------------- head commitment

  function RowPreimage(e: Event): Bytes {
    Preimage(e.originalHash, e.enrichedHash, e.prevChainHash)
  }

  /** The byte strings a ledger's rows were hashed from. */
  ghost predicate HashedIn(rows: seq<Event>, x: Bytes) {
    exists i :: 0 <= i < |rows| && RowPreimage(rows[i]) == x
  }

  predicate SameHashes(a: Event, b: Event) {
    && a.originalHash == b.originalHash && a.enrichedHash == b.enrichedHash
    && a.chainHash == b.chainHash && a.prevChainHash == b.prevChainHash
  }

  datatype Commitment =
    | Agree
    | Collision(x: Bytes, y: Bytes)
    | GenesisPreimage(z: Bytes)

  lemma LinkedPreimage(H: Hash, e: Event, prev: string)
    requires Linked(H, e, prev)
    ensures |RowPreimage(e)| == 96 && e.chainHash == EncodeHex(H(RowPreimage(e)))
  {
    HexDigestBytes(e.originalHash);
    HexDigestBytes(e.enrichedHash);
    HexDigestBytes(prev);
  }

  lemma PreimageParts(H: Hash, a: Event, b: Event, p: string, q: string)
    requires Linked(H, a, p) && Linked(H, b, q) && RowPreimage(a) == RowPreimage(b)
    ensures SameHashes(a, b) && p == q
  {
    HexDigestBytes(a.originalHash);
    HexDigestBytes(a.enrichedHash);
    HexDigestBytes(p);
    HexDigestBytes(b.originalHash);
    HexDigestBytes(b.enrichedHash);
    HexDigestBytes(q);
    var x, y := RowPreimage(a), RowPreimage(b);
    assert x[..32] == DecodeHex(a.originalHash) && y[..32] == DecodeHex(b.originalHash);
    assert x[32..64] == DecodeHex(a.enrichedHash) && y[32..64] == DecodeHex(b.enrichedHash);
    assert x[64..] == DecodeHex(p) && y[64..] == DecodeHex(q);
  }

  lemma HashedInPrefix(rows: seq<Event>, k: nat, x: Bytes)
    requires k <= |rows| && HashedIn(rows[..k], x)
    ensures HashedIn(rows, x)
  {
    var i :| 0 <= i < k && RowPreimage(rows[..k][i]) == x;
    assert RowPreimage(rows[i]) == x;
  }

  /** A non-empty ledger whose head is the genesis hash holds a preimage of the zero digest. */
  lemma GenesisHead(H: Hash, rows: seq<Event>) returns (z: Bytes)
    requires ValidChain(H, rows) && rows != [] && Head(rows) == Genesis()
    ensures HashedIn(rows, z) && |z| == 96 && H(z) == ZeroDigest()
  {
    var n := |rows| - 1;
    DropLastKeepsChain(H, rows);
    LinkedPreimage(H, rows[n], Head(rows[..n]));
    z := RowPreimage(rows[n]);
    EncodeHexInjective(H(z), ZeroDigest());
  }

  /**
    The head commits to the whole ledger. Two valid ledgers of any lengths with equal heads
    agree on every hash of every row; or the lemma returns two different 96-byte strings,
    hashed in the one and in the other, with equal digests; or a 96-byte string hashed in one
    of them whose digest is zero.
   */
  lemma {:induction false} HeadCommitment(H: Hash, a: seq<Event>, b: seq<Event>) returns (c: Commitment)
    requires ValidChain(H, a) && ValidChain(H, b) && Head(a) == Head(b)
    ensures c.Agree? ==> |a| == |b| && forall i :: 0 <= i < |a| ==> SameHashes(a[i], b[i])
    ensures c.Collision? ==>
      && c.x != c.y && |c.x| == 96 && |c.y| == 96 && H(c.x) == H(c.y) && HashedIn(a, c.x) && HashedIn(b, c.y)
    ensures c.GenesisPreimage? ==> |c.z| == 96 && H(c.z) == ZeroDigest() && (HashedIn(a, c.z) || HashedIn(b, c.z))
    decreases |a|
  {
    hide Linked, Head, Genesis, RowPreimage, ValidChain, ZeroDigest, HashedIn, SameHashes;
    if a == [] && b == [] {
      c := Agree;
    } else if a == [] {
      EmptyHead();
      var z := GenesisHead(H, b);
      c := GenesisPreimage(z);
    } else if b == [] {
      EmptyHead();
      var z := GenesisHead(H, a);
      c := GenesisPreimage(z);
    } else {
      c := CommitLast(H, a, b);
      var n, m := |a| - 1, |b| - 1;
      if c.Agree? {
        DropLastKeepsChain(H, a);
        DropLastKeepsChain(H, b);
        c := HeadCommitment(H, a[..n], b[..m]);
        match c {
          case Agree =>
            assert forall i :: 0 <= i < n ==> SameHashes(a[..n][i], b[..m][i]);
          case Collision(x, y) =>
            HashedInPrefix(a, n, x);
            HashedInPrefix(b, m, y);
          case GenesisPreimage(z) =>
            if HashedIn(a[..n], z) {
              HashedInPrefix(a, n, z);
            } else {
              HashedInPrefix(b, m, z);
            }
        }
      }
    }
  }

  lemma EmptyHead()
    ensures Head([]) == Genesis()
  {
  }

  /** One link: equal heads either agree on the last rows, or the last rows collide. */
  lemma CommitLast(H: Hash, a: seq<Event>, b: seq<Event>) returns (c: Commitment)
    requires ValidChain(H, a) && ValidChain(H, b) && a != [] && b != [] && Head(a) == Head(b)
    ensures !c.GenesisPreimage?
    ensures c.Agree? ==> SameHashes(a[|a| - 1], b[|b| - 1]) && Head(a[..|a| - 1]) == Head(b[..|b| - 1])
    ensures c.Collision? ==>
      && c.x != c.y && |c.x| == 96 && |c.y| == 96 && H(c.x) == H(c.y) && HashedIn(a, c.x) && HashedIn(b, c.y)
  {
    hide Linked, RowPreimage, ValidChain, SameHashes;
    var n, m := |a| - 1, |b| - 1;
    DropLastKeepsChain(H, a);
    DropLastKeepsChain(H, b);
    LinkedPreimage(H, a[n], Head(a[..n]));
    LinkedPreimage(H, b[m], Head(b[..m]));
    var x, y := RowPreimage(a[n]), RowPreimage(b[m]);
    if x == y {
      PreimageParts(H, a[n], b[m], Head(a[..n]), Head(b[..m]));
      c := Agree;
    } else {
      EncodeHexInjective(H(x), H(y));
      c := Collision(x, y);
    }
  }
}
