/** The independent verifier, `verify.py`. */
module Verifier {
  import opened Option
  import opened Bytes
  import opened Ledger
  import opened Witness

  // --------------------------------------------------------------- key lookup

  predicate KeyFor(c: Suite, file: Bytes, fp: string) {
    |file| == 32 && Fingerprint(c, file) == fp
  }

  /** The first file of the directory scan that is a key with this fingerprint. */
  function FindKey(c: Suite, dir: seq<Bytes>, fp: string): (k: Option<Bytes>)
    ensures k.Some? ==> k.value in dir && KeyFor(c, k.value, fp)
    ensures k.None? ==> forall f :: f in dir ==> !KeyFor(c, f, fp)
  {
    if dir == [] then None else if KeyFor(c, dir[0], fp) then Some(dir[0]) else FindKey(c, dir[1..], fp)
  }

  method FindPublicKey(c: Suite, dir: seq<Bytes>, fp: string) returns (k: Option<Bytes>)
    ensures k == FindKey(c, dir, fp)
  {
    for i := 0 to |dir|
      invariant FindKey(c, dir[i..], fp) == FindKey(c, dir, fp)
    {
      var raw := dir[i];
      assert dir[i..][0] == raw && dir[i..][1..] == dir[i + 1..];
      if |raw| != 32 {
        continue;
      }
      if EncodeHex(c.H(raw))[..16] == fp {
        return Some(raw);
      }
    }
    return None;
  }

  // -------------------------------------------------------------- verification

  /** Raised is an uncaught Python exception. */
  datatype Verdict = Valid | Invalid | Raised

  /** recompute_chain_hash; None when bytes.fromhex raises. */
  function Recompute(c: Suite, original: string, enriched: string, prev: string): Option<Digest> {
    if FromHex(original).None? || FromHex(enriched).None? || FromHex(prev).None? then None
    else Some(c.H(FromHex(original).value + FromHex(enriched).value + FromHex(prev).value))
  }

  predicate EntryValid(c: Suite, dir: seq<Bytes>, digest: Bytes, e: SignatureEntry) {
    match FindKey(c, dir, e.fingerprint)
    case None => false
    case Some(pub) =>
      && c.lenient64(e.signature).Some? && |c.lenient64(e.signature).value| == 64
      && c.verify(pub, WitnessDigest(c, digest, e.timestamp), c.lenient64(e.signature).value)
  }

  function CountValid(c: Suite, dir: seq<Bytes>, digest: Bytes, sigs: seq<SignatureEntry>): nat {
    if sigs == [] then 0
    else
      CountValid(c, dir, digest, sigs[..|sigs| - 1]) + (if EntryValid(c, dir, digest, sigs[|sigs| - 1]) then 1 else 0)
  }

  /** An entry that raises: its text is not base64, or its key is found and it is not 64 bytes long. */
  predicate Raises(c: Suite, dir: seq<Bytes>, e: SignatureEntry) {
    || c.lenient64(e.signature).None?
    || (FindKey(c, dir, e.fingerprint).Some? && |c.lenient64(e.signature).value| != 64)
  }

  /** A payload file matches when its bytes, or the bytes its base64 text stands for, have the recorded hash. */
  predicate PayloadMatches(c: Suite, strict64: Bytes -> Option<Bytes>, content: Bytes, hash: string) {
    || EncodeHex(c.H(content)) == hash
    || (strict64(content).Some? && EncodeHex(c.H(strict64(content).value)) == hash)
  }

  predicate PayloadsMatch(c: Suite, strict64: Bytes -> Option<Bytes>, b: Bundle, iso: Option<Bytes>,
                          xml: Option<Bytes>) {
    && (iso.Some? ==> PayloadMatches(c, strict64, iso.value, b.originalHash))
    && (xml.Some? ==> EncodeHex(c.H(xml.value)) == b.enrichedHash)
  }

  /** What the verifier answers, stated outright. */
  ghost function VerdictOf(c: Suite, strict64: Bytes -> Option<Bytes>, b: Bundle, dir: seq<Bytes>,
                           iso: Option<Bytes>, xml: Option<Bytes>): Verdict {
    var digest := Recompute(c, b.originalHash, b.enrichedHash, b.prevChainHash);
    if !PayloadsMatch(c, strict64, b, iso, xml) then Invalid
    else if digest.None? || FromHex(b.chainHash).None? then Raised
    else if digest.value != FromHex(b.chainHash).value then Invalid
    else if exists e :: e in b.signatures && Raises(c, dir, e) then Raised
    else if CountValid(c, dir, digest.value, b.signatures) >= 2 then Valid
    else Invalid
  }

  /** get_payload_hash */
  method PayloadHash(c: Suite, strict64: Bytes -> Option<Bytes>, content: Bytes, isBase64: bool) returns (h: string)
    ensures h == EncodeHex(c.H(if isBase64 && strict64(content).Some? then strict64(content).value else content))
  {
    if isBase64 {
      var decoded := strict64(content);
      if decoded.Some? {
        return EncodeHex(c.H(decoded.value));
      }
    }
    return EncodeHex(c.H(content));
  }

  method CheckPayloads(c: Suite, strict64: Bytes -> Option<Bytes>, b: Bundle, iso: Option<Bytes>, xml: Option<Bytes>)
    returns (ok: bool)
    ensures ok <==> PayloadsMatch(c, strict64, b, iso, xml)
  {
    if iso.Some? {
      var isoHash := PayloadHash(c, strict64, iso.value, true);
      if isoHash != b.originalHash {
        var rawHash := PayloadHash(c, strict64, iso.value, false);
        if rawHash == b.originalHash {
          isoHash := rawHash;
        }
      }
      if isoHash != b.originalHash {
        return false;
      }
    }
    if xml.Some? {
      var xmlHash := PayloadHash(c, strict64, xml.value, false);
      if xmlHash != b.enrichedHash {
        return false;
      }
    }
    return true;
  }

  /** verify_bundle */
  method VerifyBundle(c: Suite, strict64: Bytes -> Option<Bytes>, b: Bundle, dir: seq<Bytes>,
                      iso: Option<Bytes>, xml: Option<Bytes>) returns (v: Verdict)
    ensures v == VerdictOf(c, strict64, b, dir, iso, xml)
  {
    hide PayloadsMatch;
    var payloads := CheckPayloads(c, strict64, b, iso, xml);
    if !payloads {
      return Invalid;
    }
    var computed := Recompute(c, b.originalHash, b.enrichedHash, b.prevChainHash);
    var stored := FromHex(b.chainHash);
    if computed.None? || stored.None? {
      return Raised;
    }
    if computed.value != stored.value {
      return Invalid;
    }
    var validCount := CountSignatures(c, b.signatures, dir, computed.value);
    if validCount.None? {
      return Raised;
    }
    return if validCount.value >= 2 then Valid else Invalid;
  }

  /** The signature loop; None when decoding or the signature library raises. */
  method CountSignatures(c: Suite, sigs: seq<SignatureEntry>, dir: seq<Bytes>,
                         computed: Digest) returns (n: Option<nat>)
    ensures n.None? <==> exists e :: e in sigs && Raises(c, dir, e)
    ensures n.Some? ==> n.value == CountValid(c, dir, computed, sigs)
  {
    var validCount := 0;
    for i := 0 to |sigs|
      invariant validCount == CountValid(c, dir, computed, sigs[..i])
      invariant forall j :: 0 <= j < i ==> !Raises(c, dir, sigs[j])
    {
      var entry := sigs[i];
      var sig := c.lenient64(entry.signature);
      if sig.None? {
        assert entry in sigs && Raises(c, dir, entry);
        return None;
      }
      var pub := FindPublicKey(c, dir, entry.fingerprint);
      assert sigs[..i + 1][..i] == sigs[..i] && sigs[..i + 1][i] == entry;
      if pub.None? {
        continue;
      }
      var witnessHash := c.H(computed + entry.timestamp);
      if |sig.value| != 64 {
        assert entry in sigs && Raises(c, dir, entry);
        return None;
      }
      if c.verify(pub.value, witnessHash, sig.value) {
        validCount := validCount + 1;
      }
    }
    assert sigs[..|sigs|] == sigs;
    return Some(validCount);
  }
}
