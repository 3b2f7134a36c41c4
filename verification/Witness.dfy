/**
  A witness node. Ed25519 (section 5.1 of RFC 8032) and base64 are parameters; the only laws
  assumed of them are that honest signatures verify and that decoding undoes encoding.
 */
module Witness {
  import opened Option
  import opened Bytes
  import opened Ledger
  import opened Collect

  type Signature = s: Bytes | |s| == 64 witness seq(64, _ => 'a')

  datatype Suite = Suite(
    H: Hash,
    publicOf: Bytes -> Digest,                 // a public key is 32 bytes
    sign: (Bytes, Bytes) -> Signature,         // private key, message
    verify: (Bytes, Bytes, Bytes) -> bool,     // public key, message, signature
    encode64: Bytes -> string,
    decode64: string -> Option<Bytes>,         // Go's StdEncoding, strict
    lenient64: string -> Option<Bytes>)        // Python's b64decode, which skips foreign characters

  ghost predicate Lawful(c: Suite) {
    && (forall sk: Bytes, m: Bytes :: c.verify(c.publicOf(sk), m, c.sign(sk, m)))
    && (forall b: Bytes :: c.decode64(c.encode64(b)) == Some(b))
    && (forall b: Bytes :: c.lenient64(c.encode64(b)) == Some(b))
  }

  datatype Node = Node(priv: Bytes, pub: Bytes, fp: string, name: string, token: string)

  /** The first 16 digits of the key's hash. */
  function Fingerprint(c: Suite, pub: Bytes): string {
    EncodeHex(c.H(pub))[..16]
  }

  /** How `main` builds a node from its key pair. */
  predicate Genuine(c: Suite, w: Node) {
    w.pub == c.publicOf(w.priv) && w.fp == Fingerprint(c, w.pub)
  }

  /** What a witness signs: the coordination digest bound to its own time stamp. */
  function WitnessDigest(c: Suite, digest: Bytes, timestamp: Bytes): Digest {
    c.H(digest + timestamp)
  }

  function EntryBy(c: Suite, w: Node, digest: Bytes, timestamp: Bytes): SignatureEntry {
    SignatureEntry(w.name, w.fp, c.encode64(c.sign(w.priv, WitnessDigest(c, digest, timestamp))), timestamp)
  }

  datatype SignResult = Entry(entry: SignatureEntry) | Unauthorized | BadHash

  /** handleSign: guarded early returns, then a running hash fed twice. */
  method HandleSign(c: Suite, w: Node, auth: string, hash: string, timestamp: Bytes) returns (r: SignResult)
    ensures r.Unauthorized? <==> w.token != "" && auth != "Bearer " + w.token
    ensures r.BadHash? <==> !r.Unauthorized? && (c.decode64(hash).None? || |c.decode64(hash).value| != 32)
    ensures r.Entry? ==> r.entry == EntryBy(c, w, c.decode64(hash).value, timestamp)
    ensures r.Entry? ==> r.entry.witnessName == w.name && r.entry.fingerprint == w.fp && r.entry.timestamp == timestamp
    ensures r.Entry? ==> r.entry.signature == c.encode64(c.sign(w.priv, c.H(c.decode64(hash).value + timestamp)))
  {
    if w.token != "" {
      var expected := "Bearer " + w.token;
      if auth != expected {
        return Unauthorized;
      }
    }
    var decoded := c.decode64(hash);
    if decoded.None? || |decoded.value| != 32 {
      return BadHash;
    }
    var h: Bytes := [];
    h := h + decoded.value;
    h := h + timestamp;
    assert h == decoded.value + timestamp;
    var witnessHash := c.H(h);
    var sig := c.sign(w.priv, witnessHash);
    return Entry(SignatureEntry(w.name, w.fp, c.encode64(sig), timestamp));
  }

  /** requestSignature: the digest travels as base64, the token as a header; no entry on any failure. */
  method RequestSignature(c: Suite, w: Node, token: string, digest: Digest, timestamp: Bytes, reachable: bool)
    returns (a: Answer)
    requires Lawful(c)
    ensures a == if reachable && (w.token == "" || w.token == token)
                 then Some(EntryBy(c, w, digest, timestamp)) else None
  {
    if !reachable {
      return None;
    }
    var auth := if token == "" then "" else "Bearer " + token;
    SameToken(token, w.token);
    var r := HandleSign(c, w, auth, c.encode64(digest), timestamp);
    match r {
      case Entry(e) => return Some(e);
      case Unauthorized => return None;
      case BadHash => return None;
    }
  }

  lemma SameToken(a: string, b: string)
    ensures "Bearer " + a == "Bearer " + b <==> a == b
    ensures "Bearer " + b != ""
  {
    assert ("Bearer " + a)[7..] == a && ("Bearer " + b)[7..] == b;
  }

  /** An honest entry, as the verifier decodes it, is a whole signature and verifies under the witness's key. */
  lemma EntryVerifies(c: Suite, w: Node, digest: Bytes, timestamp: Bytes)
    requires Lawful(c) && Genuine(c, w)
    ensures var e := EntryBy(c, w, digest, timestamp);
      && e.fingerprint == Fingerprint(c, w.pub)
      && c.lenient64(e.signature).Some? && |c.lenient64(e.signature).value| == 64
      && c.verify(w.pub, WitnessDigest(c, digest, e.timestamp), c.lenient64(e.signature).value)
  {
  }
}
