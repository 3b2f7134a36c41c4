/**
  What a verdict means, in terms of the hash, the key files and the signature check alone, for
  bundles of any origin.
 */
module Verdicts {
  import opened Option
  import opened Bytes
  import opened Ledger
  import opened Witness
  import opened Verifier
  import opened Agreement

  /** File k is the key of this fingerprint: 32 bytes whose hash begins so, and no earlier file is another. */
  ghost predicate KeyAt(c: Suite, dir: seq<Bytes>, fp: string, k: nat) {
    && k < |dir| && |dir[k]| == 32 && EncodeHex(c.H(dir[k]))[..16] == fp
    && forall l: nat :: l < k && |dir[l]| == 32 ==> EncodeHex(c.H(dir[l]))[..16] != fp
  }

  /** The key in file k signed this digest, bound to the entry's time stamp. */
  ghost predicate SignedBy(c: Suite, dir: seq<Bytes>, digest: Bytes, e: SignatureEntry, k: nat) {
    && KeyAt(c, dir, e.fingerprint, k)
    && c.lenient64(e.signature).Some? && |c.lenient64(e.signature).value| == 64
    && c.verify(dir[k], c.H(digest + e.timestamp), c.lenient64(e.signature).value)
  }

  ghost predicate Verifies(c: Suite, dir: seq<Bytes>, digest: Bytes, e: SignatureEntry) {
    exists k: nat :: SignedBy(c, dir, digest, e, k)
  }

  // ------------------------------------------------------------------ keys

  lemma {:induction false} KeyFound(c: Suite, dir: seq<Bytes>, fp: string) returns (k: nat)
    requires FindKey(c, dir, fp).Some?
    ensures KeyAt(c, dir, fp, k) && dir[k] == FindKey(c, dir, fp).value
  {
    hide KeyAt;
    if KeyFor(c, dir[0], fp) {
      k := 0;
      FirstFile(c, dir, fp);
    } else {
      var l := KeyFound(c, dir[1..], fp);
      LaterFile(c, dir, fp, l);
      k := l + 1;
    }
  }

  lemma FirstFile(c: Suite, dir: seq<Bytes>, fp: string)
    requires dir != [] && KeyFor(c, dir[0], fp)
    ensures KeyAt(c, dir, fp, 0)
  {
  }

  lemma LaterFile(c: Suite, dir: seq<Bytes>, fp: string, l: nat)
    requires dir != [] && !KeyFor(c, dir[0], fp) && KeyAt(c, dir[1..], fp, l)
    ensures KeyAt(c, dir, fp, l + 1) && dir[l + 1] == dir[1..][l]
  {
    forall i: nat | i < l + 1 && |dir[i]| == 32 ensures EncodeHex(c.H(dir[i]))[..16] != fp {
      if i > 0 {
        assert dir[i] == dir[1..][i - 1];
      }
    }
  }

  lemma {:induction false} KeyAtIsFound(c: Suite, dir: seq<Bytes>, fp: string, k: nat)
    requires KeyAt(c, dir, fp, k)
    ensures FindKey(c, dir, fp) == Some(dir[k])
  {
    if k == 0 {
    } else {
      assert !KeyFor(c, dir[0], fp);
      assert forall i: nat :: i < |dir| - 1 ==> dir[1..][i] == dir[i + 1];
      KeyAtIsFound(c, dir[1..], fp, k - 1);
    }
  }

  lemma ValidIsVerified(c: Suite, dir: seq<Bytes>, digest: Bytes, e: SignatureEntry)
    ensures EntryValid(c, dir, digest, e) <==> Verifies(c, dir, digest, e)
  {
    hide KeyAt, FindKey;
    if EntryValid(c, dir, digest, e) {
      var k := KeyFound(c, dir, e.fingerprint);
      assert SignedBy(c, dir, digest, e, k);
    }
    if Verifies(c, dir, digest, e) {
      var k: nat :| SignedBy(c, dir, digest, e, k);
      KeyAtIsFound(c, dir, e.fingerprint, k);
    }
  }

  // ------------------------------------------------------------------ count

  ghost function VerifiedPlaces(c: Suite, dir: seq<Bytes>, digest: Bytes, sigs: seq<SignatureEntry>): set<nat> {
    set i: nat | i < |sigs| && Verifies(c, dir, digest, sigs[i])
  }

  /** The count is the number of places whose signature verifies. */
  lemma {:induction false} CountIsVerified(c: Suite, dir: seq<Bytes>, digest: Bytes, sigs: seq<SignatureEntry>)
    ensures CountValid(c, dir, digest, sigs) == |VerifiedPlaces(c, dir, digest, sigs)|
  {
    hide Verifies, EntryValid;
    if sigs == [] {
    } else {
      var n := |sigs| - 1;
      var front := sigs[..n];
      CountIsVerified(c, dir, digest, front);
      ValidIsVerified(c, dir, digest, sigs[n]);
      assert forall i :: 0 <= i < n ==> front[i] == sigs[i];
      var places := VerifiedPlaces(c, dir, digest, front);
      assert VerifiedPlaces(c, dir, digest, sigs)
        == if Verifies(c, dir, digest, sigs[n]) then places + {n} else places;
    }
  }

  ghost predicate TwoVerify(c: Suite, dir: seq<Bytes>, digest: Bytes, sigs: seq<SignatureEntry>) {
    exists i, j :: 0 <= i < j < |sigs| && Verifies(c, dir, digest, sigs[i]) && Verifies(c, dir, digest, sigs[j])
  }

  lemma TwoMembers(s: set<nat>)
    ensures |s| >= 2 <==> exists i, j :: i in s && j in s && i < j
  {
    if |s| >= 2 {
      var i :| i in s;
      var rest := s - {i};
      assert rest != {};
      var j :| j in rest;
      assert i < j || j < i;
    }
    if i, j :| i in s && j in s && i < j {
      assert s == {i} + {j} + (s - {i} - {j});
    }
  }

  lemma TwoIffCount(c: Suite, dir: seq<Bytes>, digest: Bytes, sigs: seq<SignatureEntry>)
    ensures CountValid(c, dir, digest, sigs) >= 2 <==> TwoVerify(c, dir, digest, sigs)
  {
    hide Verifies, CountValid;
    CountIsVerified(c, dir, digest, sigs);
    var places := VerifiedPlaces(c, dir, digest, sigs);
    assert forall i :: i in places <==> 0 <= i < |sigs| && Verifies(c, dir, digest, sigs[i]);
    hide VerifiedPlaces;
    TwoMembers(places);
  }

  // ---------------------------------------------------------------- verdict

  /** The supplied files are what the bundle's hashes say. */
  predicate FilesHash(c: Suite, strict64: Bytes -> Option<Bytes>, b: Bundle, iso: Option<Bytes>, xml: Option<Bytes>) {
    && (xml.Some? ==> EncodeHex(c.H(xml.value)) == b.enrichedHash)
    && (iso.Some? ==>
          || EncodeHex(c.H(iso.value)) == b.originalHash
          || (strict64(iso.value).Some? && EncodeHex(c.H(strict64(iso.value).value)) == b.originalHash))
  }

  predicate HexFields(b: Bundle) {
    FromHex(b.originalHash).Some? && FromHex(b.enrichedHash).Some? && FromHex(b.prevChainHash).Some?
    && FromHex(b.chainHash).Some?
  }

  /** The digest of the three hashes, one behind the other. */
  function Sealed(c: Suite, b: Bundle): Digest
    requires HexFields(b)
  {
    c.H(FromHex(b.originalHash).value + FromHex(b.enrichedHash).value + FromHex(b.prevChainHash).value)
  }

  /** An entry over which the loop raises: bad base64, or a known key and not 64 bytes. */
  ghost predicate Trips(c: Suite, dir: seq<Bytes>, e: SignatureEntry) {
    || c.lenient64(e.signature).None?
    || ((exists k: nat :: KeyAt(c, dir, e.fingerprint, k)) && |c.lenient64(e.signature).value| != 64)
  }

  lemma RaisesIsTrips(c: Suite, dir: seq<Bytes>, e: SignatureEntry)
    ensures Raises(c, dir, e) <==> Trips(c, dir, e)
  {
    hide KeyAt, FindKey;
    if FindKey(c, dir, e.fingerprint).Some? {
      var k := KeyFound(c, dir, e.fingerprint);
    }
    if k: nat :| KeyAt(c, dir, e.fingerprint, k) {
      KeyAtIsFound(c, dir, e.fingerprint, k);
    }
  }

  /**
    Soundness and completeness of the verdict, both ways. Valid: the files supplied have the
    recorded hashes, the chain hash is the digest of the three, no entry trips the loop, and at two
    places a signature by a key of the directory verifies over that digest and its time stamp.
    Raised: the files match, and a hash is not hexadecimal or, over the right chain hash, an entry
    trips. Invalid: everything else.
   */
  lemma VerdictMeans(c: Suite, strict64: Bytes -> Option<Bytes>, b: Bundle, dir: seq<Bytes>,
                     iso: Option<Bytes>, xml: Option<Bytes>)
    ensures VerdictOf(c, strict64, b, dir, iso, xml) == Valid <==>
      && FilesHash(c, strict64, b, iso, xml) && HexFields(b) && FromHex(b.chainHash) == Some(Sealed(c, b))
      && (forall e :: e in b.signatures ==> !Trips(c, dir, e))
      && TwoVerify(c, dir, Sealed(c, b), b.signatures)
    ensures VerdictOf(c, strict64, b, dir, iso, xml) == Raised <==>
      && FilesHash(c, strict64, b, iso, xml)
      && (HexFields(b) ==> FromHex(b.chainHash) == Some(Sealed(c, b)) && exists e :: e in b.signatures && Trips(c, dir, e))
  {
    hide Raises, Trips, TwoVerify, CountValid, FromHex;
    forall e ensures Raises(c, dir, e) <==> Trips(c, dir, e) {
      RaisesIsTrips(c, dir, e);
    }
    if HexFields(b) {
      TwoIffCount(c, dir, Sealed(c, b), b.signatures);
    }
  }

  /** In particular nobody is fooled by signatures that do not verify. */
  lemma UnverifiedIsNotValid(c: Suite, strict64: Bytes -> Option<Bytes>, b: Bundle, dir: seq<Bytes>,
                             iso: Option<Bytes>, xml: Option<Bytes>)
    requires forall key, m, s :: key in dir ==> !c.verify(key, m, s)
    ensures VerdictOf(c, strict64, b, dir, iso, xml) != Valid
  {
    hide VerdictOf, KeyAt, FromHex, Trips, FilesHash;
    VerdictMeans(c, strict64, b, dir, iso, xml);
    forall e, digest ensures !Verifies(c, dir, digest, e) {
      NeverVerifies(c, dir, digest, e);
    }
    hide Verifies;
  }

  lemma NeverVerifies(c: Suite, dir: seq<Bytes>, digest: Bytes, e: SignatureEntry)
    requires forall key, m, s :: key in dir ==> !c.verify(key, m, s)
    ensures !Verifies(c, dir, digest, e)
  {
    forall k: nat ensures !SignedBy(c, dir, digest, e, k) {
      if k < |dir| {
        assert dir[k] in dir;
      }
    }
  }

  // ---------------------------------------------------------------- signers

  /** This key signed some entry. */
  ghost predicate Signer(c: Suite, dir: seq<Bytes>, digest: Bytes, sigs: seq<SignatureEntry>, key: Bytes) {
    exists e, k: nat :: e in sigs && k < |dir| && SignedBy(c, dir, digest, e, k) && dir[k] == key
  }

  lemma SignedIsBehind(c: Suite, dir: seq<Bytes>, digest: Bytes, e: SignatureEntry, k: nat)
    requires SignedBy(c, dir, digest, e, k)
    ensures EntryValid(c, dir, digest, e) && KeyBehind(c, dir, digest, e) == dir[k]
  {
    KeyAtIsFound(c, dir, e.fingerprint, k);
  }

  lemma SignedHasKey(c: Suite, dir: seq<Bytes>, digest: Bytes, e: SignatureEntry)
    requires Verifies(c, dir, digest, e)
    ensures exists k: nat :: k < |dir| && SignedBy(c, dir, digest, e, k)
  {
    var k: nat :| SignedBy(c, dir, digest, e, k);
    assert k < |dir|;
  }

  /** The keys the count is compared with are those whose signature verifies, and no others. */
  lemma KeysAreSigners(c: Suite, dir: seq<Bytes>, digest: Bytes, sigs: seq<SignatureEntry>, key: Bytes)
    ensures key in KeysBehind(c, dir, digest, sigs) <==> Signer(c, dir, digest, sigs, key)
  {
    hide EntryValid, SignedBy, KeyBehind;
    if key in KeysBehind(c, dir, digest, sigs) {
      var e :| e in sigs && EntryValid(c, dir, digest, e) && KeyBehind(c, dir, digest, e) == key;
      ValidIsVerified(c, dir, digest, e);
      SignedHasKey(c, dir, digest, e);
      var k: nat :| k < |dir| && SignedBy(c, dir, digest, e, k);
      SignedIsBehind(c, dir, digest, e, k);
      assert dir[k] == key;
    }
    if Signer(c, dir, digest, sigs, key) {
      var e, k: nat :| e in sigs && k < |dir| && SignedBy(c, dir, digest, e, k) && dir[k] == key;
      SignedIsBehind(c, dir, digest, e, k);
      assert KeyBehind(c, dir, digest, e) in KeysBehind(c, dir, digest, sigs);
    }
  }
}
