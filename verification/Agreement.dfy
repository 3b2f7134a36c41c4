/** The gateway and the verifier mean the same thing by a quorum. */
module Agreement {
  import opened Option
  import opened Bytes
  import opened Ledger
  import opened Collect
  import opened Witness
  import opened Verifier

  // ------------------------------------------------------------ honest entries

  ghost predicate Honest(c: Suite, e: SignatureEntry, w: Node, digest: Bytes) {
    e == EntryBy(c, w, digest, e.timestamp)
  }

  predicate AllDifferent(who: seq<nat>) {
    forall i, j :: 0 <= i < j < |who| ==> who[i] != who[j]
  }

  /** Entry k was made by witness who[k], and no witness made two. */
  ghost predicate HonestEntries(c: Suite, sigs: seq<SignatureEntry>, ws: seq<Node>, digest: Bytes, who: seq<nat>) {
    && |who| == |sigs| && AllDifferent(who)
    && forall k :: 0 <= k < |sigs| ==> who[k] < |ws| && Honest(c, sigs[k], ws[who[k]], digest)
  }

  /** Whatever a goroutine brought back was made by its own witness over this digest. */
  ghost predicate HonestReplies(c: Suite, p: Protocol, ws: seq<Node>, digest: Bytes) {
    && |p.senders| == |ws|
    && forall i :: 0 <= i < |ws| && p.senders[i].Some? && p.senders[i].value.Some? ==>
      Honest(c, p.senders[i].value.value, ws[i], digest)
  }

  /** The senders of the successful replies, in order. */
  function Signers(rs: seq<Reply>): seq<nat> {
    if rs == [] then []
    else (if rs[0].answer.Some? then [rs[0].from] else []) + Signers(rs[1..])
  }

  lemma {:induction false} SignersAreSenders(rs: seq<Reply>)
    requires DistinctSenders(rs)
    ensures AllDifferent(Signers(rs))
    ensures forall f :: f in Signers(rs) ==> exists k :: 0 <= k < |rs| && rs[k].from == f
  {
    if rs == [] {
    } else {
      var tail := rs[1..];
      SignersAreSenders(tail);
      assert forall k :: 0 <= k < |tail| ==> tail[k] == rs[k + 1];
      assert rs[0].from !in Signers(tail);
      forall f | f in Signers(rs) ensures exists k :: 0 <= k < |rs| && rs[k].from == f {
        if f in Signers(tail) {
          var k :| 0 <= k < |tail| && tail[k].from == f;
          assert rs[k + 1].from == f;
        } else {
          assert rs[0].from == f;
        }
      }
      ConsDifferent(if rs[0].answer.Some? then [rs[0].from] else [], Signers(tail));
    }
  }

  lemma ConsDifferent(a: seq<nat>, b: seq<nat>)
    requires |a| <= 1 && AllDifferent(b) && (a != [] ==> a[0] !in b)
    ensures AllDifferent(a + b)
  {
  }

  lemma {:induction false} GatheredBySigners(c: Suite, rs: seq<Reply>, ws: seq<Node>, digest: Bytes)
    requires forall k :: 0 <= k < |rs| && rs[k].answer.Some? ==>
      rs[k].from < |ws| && Honest(c, rs[k].answer.value, ws[rs[k].from], digest)
    ensures |Gathered(AsSelected(rs))| == |Signers(rs)|
    ensures forall k :: 0 <= k < |Signers(rs)| ==>
      Signers(rs)[k] < |ws| && Honest(c, Gathered(AsSelected(rs))[k], ws[Signers(rs)[k]], digest)
  {
    hide Honest;
    if rs == [] {
    } else {
      assert AsSelected(rs)[0] == Arrived(rs[0].answer) && AsSelected(rs)[1..] == AsSelected(rs[1..]);
      GatheredBySigners(c, rs[1..], ws, digest);
    }
  }

  /** The entries a run of collectSignatures gathers from honest replies come from different witnesses. */
  lemma CollectedAreHonest(c: Suite, ws: seq<Node>, digest: Bytes, moves: seq<Move>) returns (who: seq<nat>)
    requires After(Start(|ws|), moves).Some?
    requires HonestReplies(c, After(Start(|ws|), moves).value, ws, digest)
    ensures HonestEntries(c, After(Start(|ws|), moves).value.sigs, ws, digest, who)
  {
    hide Honest, After, Signers, AsSelected;
    AtMostOneEach(|ws|, moves);
    var p := After(Start(|ws|), moves).value;
    who := Signers(p.taken);
    SignersAreSenders(p.taken);
    GatheredBySigners(c, p.taken, ws, digest);
  }

  /** What a call of collectSignatures may return when the witnesses that answer are these. */
  ghost predicate MayReturn(c: Suite, ws: seq<Node>, digest: Bytes, sigs: seq<SignatureEntry>) {
    exists moves :: ReturnsBy(c, ws, digest, sigs, moves)
  }

  ghost predicate ReturnsBy(c: Suite, ws: seq<Node>, digest: Bytes, sigs: seq<SignatureEntry>, moves: seq<Move>) {
    && After(Start(|ws|), moves).Some?
    && var p := After(Start(|ws|), moves).value;
       !p.phase.Receiving? && p.sigs == sigs && HonestReplies(c, p, ws, digest)
  }

  /** All of them may stay silent until the deadline, or there may be none. */
  lemma SilenceIsPossible(c: Suite, ws: seq<Node>, digest: Bytes)
    ensures MayReturn(c, ws, digest, [])
  {
    var m := if ws == [] then Leave else Expire;
    var p := Start(|ws|);
    assert Enabled(p, m) && [m][1..] == [];
    assert After(p, [m]) == After(Next(p, m), []);
    assert ReturnsBy(c, ws, digest, [], [m]);
  }

  lemma ReturnedAreHonest(c: Suite, ws: seq<Node>, digest: Bytes, sigs: seq<SignatureEntry>) returns (who: seq<nat>)
    requires MayReturn(c, ws, digest, sigs)
    ensures HonestEntries(c, sigs, ws, digest, who)
  {
    hide After, HonestReplies, HonestEntries;
    var moves :| ReturnsBy(c, ws, digest, sigs, moves);
    who := CollectedAreHonest(c, ws, digest, moves);
  }

  // ------------------------------------------------------------ the key directory

  /** Every witness's key is there, and no fingerprint fits two different keys. */
  ghost predicate KeysPresent(c: Suite, dir: seq<Bytes>, ws: seq<Node>) {
    && (forall i :: 0 <= i < |ws| ==> ws[i].pub in dir && Genuine(c, ws[i]))
    && (forall f, g :: f in dir && g in dir && |f| == 32 && |g| == 32 && Fingerprint(c, f) == Fingerprint(c, g) ==>
          f == g)
    && (forall i, j :: 0 <= i < j < |ws| ==> ws[i].pub != ws[j].pub)
  }

  lemma HonestIsValid(c: Suite, dir: seq<Bytes>, ws: seq<Node>, digest: Bytes, e: SignatureEntry, i: nat)
    requires Lawful(c) && KeysPresent(c, dir, ws) && i < |ws| && Honest(c, e, ws[i], digest)
    ensures EntryValid(c, dir, digest, e) && !Raises(c, dir, e)
    ensures FindKey(c, dir, e.fingerprint) == Some(ws[i].pub)
  {
    hide Fingerprint, Lawful, WitnessDigest;
    EntryVerifies(c, ws[i], digest, e.timestamp);
    assert KeyFor(c, ws[i].pub, e.fingerprint);
  }

  lemma {:induction false} AllCounted(c: Suite, dir: seq<Bytes>, digest: Bytes, sigs: seq<SignatureEntry>)
    requires forall e :: e in sigs ==> EntryValid(c, dir, digest, e)
    ensures CountValid(c, dir, digest, sigs) == |sigs|
  {
    hide EntryValid;
    if sigs == [] {
    } else {
      var last := |sigs| - 1;
      assert sigs[last] in sigs && forall e :: e in sigs[..last] ==> e in sigs;
      AllCounted(c, dir, digest, sigs[..last]);
    }
  }

  // ---------------------------------------------------------------- agreement

  /** A bundle as the gateway builds it from two hex digests, a head and gathered entries. */
  function BundleOf(c: Suite, id: string, original: string, enriched: string, prev: string,
                    sigs: seq<SignatureEntry>): Bundle {
    Bundle(id, original, enriched, prev, EncodeHex(CoordinationHash(c.H, original, enriched, prev)), sigs, |sigs| >= 2)
  }

  lemma FromHexIsDecode(s: string)
    requires LowerHex(s) && |s| % 2 == 0
    ensures FromHex(s) == Some(DecodeHex(s))
  {
    EncodeDecode(s);
    HexRoundTrip(DecodeHex(s));
  }

  /** The verifier recomputes exactly the digest the gateway had signed. */
  lemma SameDigest(c: Suite, original: string, enriched: string, prev: string)
    requires IsHexDigest(original) && IsHexDigest(enriched) && IsHexDigest(prev)
    ensures Recompute(c, original, enriched, prev) == Some(CoordinationHash(c.H, original, enriched, prev))
    ensures FromHex(EncodeHex(CoordinationHash(c.H, original, enriched, prev)))
         == Some(CoordinationHash(c.H, original, enriched, prev))
  {
    FromHexIsDecode(original);
    FromHexIsDecode(enriched);
    FromHexIsDecode(prev);
    HexRoundTrip(CoordinationHash(c.H, original, enriched, prev));
  }

  /**
    Agreement: for a bundle of honest entries of different witnesses whose keys are in the
    directory, and with whatever matching payload files are supplied, the verifier counts
    exactly the collected signatures and answers Valid if and only if the gateway wrote
    QUORUM_MET; and then two different witnesses signed.
   */
  lemma VerifierAgrees(c: Suite, strict64: Bytes -> Option<Bytes>, b: Bundle, dir: seq<Bytes>, ws: seq<Node>,
                       who: seq<nat>, iso: Option<Bytes>, xml: Option<Bytes>)
    requires Lawful(c) && KeysPresent(c, dir, ws)
    requires IsHexDigest(b.originalHash) && IsHexDigest(b.enrichedHash) && IsHexDigest(b.prevChainHash)
    requires b == BundleOf(c, b.bundleId, b.originalHash, b.enrichedHash, b.prevChainHash, b.signatures)
    requires HonestEntries(c, b.signatures, ws,
                           CoordinationHash(c.H, b.originalHash, b.enrichedHash, b.prevChainHash), who)
    requires PayloadsMatch(c, strict64, b, iso, xml)
    ensures CountValid(c, dir, CoordinationHash(c.H, b.originalHash, b.enrichedHash, b.prevChainHash), b.signatures)
         == |b.signatures|
    ensures VerdictOf(c, strict64, b, dir, iso, xml) == (if b.quorumMet then Valid else Invalid)
    ensures b.quorumMet ==> ws[who[0]].pub != ws[who[1]].pub
    ensures b.quorumMet ==> FindKey(c, dir, b.signatures[0].fingerprint) == Some(ws[who[0]].pub)
    ensures b.quorumMet ==> FindKey(c, dir, b.signatures[1].fingerprint) == Some(ws[who[1]].pub)
  {
    hide Lawful, EntryValid, Honest, CoordinationHash, Recompute, Raises, CountValid, PayloadsMatch;
    var digest := CoordinationHash(c.H, b.originalHash, b.enrichedHash, b.prevChainHash);
    SameDigest(c, b.originalHash, b.enrichedHash, b.prevChainHash);
    forall k | 0 <= k < |b.signatures|
      ensures EntryValid(c, dir, digest, b.signatures[k]) && !Raises(c, dir, b.signatures[k])
      ensures FindKey(c, dir, b.signatures[k].fingerprint) == Some(ws[who[k]].pub) {
      HonestIsValid(c, dir, ws, digest, b.signatures[k], who[k]);
    }
    AllCounted(c, dir, digest, b.signatures);
    if b.quorumMet {
      DifferentKeys(c, dir, ws, who[0], who[1]);
    }
  }

  lemma DifferentKeys(c: Suite, dir: seq<Bytes>, ws: seq<Node>, i: nat, j: nat)
    requires KeysPresent(c, dir, ws) && i < |ws| && j < |ws| && i != j
    ensures ws[i].pub != ws[j].pub
  {
  }

  // ---------------------------------------------------- bundles of any origin

  function KeyBehind(c: Suite, dir: seq<Bytes>, digest: Bytes, e: SignatureEntry): Bytes
    requires EntryValid(c, dir, digest, e)
  {
    FindKey(c, dir, e.fingerprint).value
  }

  /** The keys that signed. */
  function KeysBehind(c: Suite, dir: seq<Bytes>, digest: Bytes, sigs: seq<SignatureEntry>): set<Bytes> {
    set e | e in sigs && EntryValid(c, dir, digest, e) :: KeyBehind(c, dir, digest, e)
  }

  /** Two valid entries at different places carry one fingerprint. */
  predicate Shared(c: Suite, dir: seq<Bytes>, digest: Bytes, sigs: seq<SignatureEntry>) {
    exists i, j :: 0 <= i < j < |sigs| && sigs[i].fingerprint == sigs[j].fingerprint
      && EntryValid(c, dir, digest, sigs[i]) && EntryValid(c, dir, digest, sigs[j])
  }

  /** Two valid entries carry different fingerprints. */
  predicate Mixed(c: Suite, dir: seq<Bytes>, digest: Bytes, sigs: seq<SignatureEntry>) {
    exists d, e :: d in sigs && e in sigs && d.fingerprint != e.fingerprint
      && EntryValid(c, dir, digest, d) && EntryValid(c, dir, digest, e)
  }

  lemma SameKeyIffSameFingerprint(c: Suite, dir: seq<Bytes>, digest: Bytes, d: SignatureEntry, e: SignatureEntry)
    requires EntryValid(c, dir, digest, d) && EntryValid(c, dir, digest, e)
    ensures KeyBehind(c, dir, digest, d) == KeyBehind(c, dir, digest, e) <==> d.fingerprint == e.fingerprint
  {
    assert KeyFor(c, FindKey(c, dir, d.fingerprint).value, d.fingerprint);
    assert KeyFor(c, FindKey(c, dir, e.fingerprint).value, e.fingerprint);
  }

  lemma KeysSnoc(c: Suite, dir: seq<Bytes>, digest: Bytes, front: seq<SignatureEntry>, e: SignatureEntry)
    ensures var keys := KeysBehind(c, dir, digest, front);
      KeysBehind(c, dir, digest, front + [e])
      == if EntryValid(c, dir, digest, e) then keys + {KeyBehind(c, dir, digest, e)} else keys
  {
    hide EntryValid, KeyBehind;
    assert forall x :: x in front + [e] <==> x in front || x == e;
  }

  lemma SharedSnoc(c: Suite, dir: seq<Bytes>, digest: Bytes, front: seq<SignatureEntry>, e: SignatureEntry)
    ensures Shared(c, dir, digest, front + [e]) <==>
      || Shared(c, dir, digest, front)
      || (EntryValid(c, dir, digest, e) && KeyBehind(c, dir, digest, e) in KeysBehind(c, dir, digest, front))
  {
    hide EntryValid, KeyBehind;
    var sigs, n := front + [e], |front|;
    if Shared(c, dir, digest, sigs) {
      var i, j :| 0 <= i < j < |sigs| && sigs[i].fingerprint == sigs[j].fingerprint
        && EntryValid(c, dir, digest, sigs[i]) && EntryValid(c, dir, digest, sigs[j]);
      assert sigs[i] == front[i] && sigs[i] in front;
      SameKeyIffSameFingerprint(c, dir, digest, sigs[i], sigs[j]);
      if j < n {
        assert sigs[j] == front[j];
      }
    }
    if Shared(c, dir, digest, front) {
      var i, j :| 0 <= i < j < |front| && front[i].fingerprint == front[j].fingerprint
        && EntryValid(c, dir, digest, front[i]) && EntryValid(c, dir, digest, front[j]);
      assert sigs[i] == front[i] && sigs[j] == front[j];
    }
    if EntryValid(c, dir, digest, e) && KeyBehind(c, dir, digest, e) in KeysBehind(c, dir, digest, front) {
      var d :| d in front && EntryValid(c, dir, digest, d)
        && KeyBehind(c, dir, digest, d) == KeyBehind(c, dir, digest, e);
      SameKeyIffSameFingerprint(c, dir, digest, d, e);
      var i :| 0 <= i < n && front[i] == d;
      assert sigs[i] == d && sigs[n] == e;
    }
  }

  /**
    What the count counts, for entries of any origin: as many as there are different keys behind
    the valid entries, if and only if no two valid entries share a fingerprint; and never fewer.
   */
  lemma {:induction false} CountIsKeysIffUnshared(c: Suite, dir: seq<Bytes>, digest: Bytes, sigs: seq<SignatureEntry>)
    ensures |KeysBehind(c, dir, digest, sigs)| <= CountValid(c, dir, digest, sigs)
    ensures CountValid(c, dir, digest, sigs) == |KeysBehind(c, dir, digest, sigs)| <==> !Shared(c, dir, digest, sigs)
  {
    hide EntryValid, KeyBehind, Shared;
    if sigs == [] {
      NothingShared(c, dir, digest);
    } else {
      var front, e := sigs[..|sigs| - 1], sigs[|sigs| - 1];
      assert sigs == front + [e];
      CountIsKeysIffUnshared(c, dir, digest, front);
      KeysSnoc(c, dir, digest, front, e);
      SharedSnoc(c, dir, digest, front, e);
      hide KeysBehind;
    }
  }

  lemma NothingShared(c: Suite, dir: seq<Bytes>, digest: Bytes)
    ensures KeysBehind(c, dir, digest, []) == {} && !Shared(c, dir, digest, [])
  {
  }

  lemma TwoKeysIffMixed(c: Suite, dir: seq<Bytes>, digest: Bytes, sigs: seq<SignatureEntry>)
    ensures |KeysBehind(c, dir, digest, sigs)| >= 2 <==> Mixed(c, dir, digest, sigs)
  {
    hide EntryValid, KeyBehind;
    var keys := KeysBehind(c, dir, digest, sigs);
    if |keys| >= 2 {
      var k :| k in keys;
      if forall x :: x in keys ==> x == k {
        SubsetCount(keys, {k});
      }
      var l :| l in keys && l != k;
      var d :| d in sigs && EntryValid(c, dir, digest, d) && KeyBehind(c, dir, digest, d) == k;
      var e :| e in sigs && EntryValid(c, dir, digest, e) && KeyBehind(c, dir, digest, e) == l;
      SameKeyIffSameFingerprint(c, dir, digest, d, e);
    }
    if Mixed(c, dir, digest, sigs) {
      var d, e :| d in sigs && e in sigs && d.fingerprint != e.fingerprint
        && EntryValid(c, dir, digest, d) && EntryValid(c, dir, digest, e);
      SameKeyIffSameFingerprint(c, dir, digest, d, e);
      SubsetCount({KeyBehind(c, dir, digest, d), KeyBehind(c, dir, digest, e)}, keys);
    }
  }

  predicate DistinctFingerprints(sigs: seq<SignatureEntry>) {
    forall i, j :: 0 <= i < j < |sigs| ==> sigs[i].fingerprint != sigs[j].fingerprint
  }

  /**
    What Valid means, for bundles of any origin: at least one key signed, and two different keys
    if and only if two valid entries carry different fingerprints. Checking beforehand that all
    fingerprints differ suffices; then the quorum is one of keys.
   */
  lemma ValidIsTwoKeysIffMixed(c: Suite, strict64: Bytes -> Option<Bytes>, b: Bundle, dir: seq<Bytes>,
                               iso: Option<Bytes>, xml: Option<Bytes>)
    requires VerdictOf(c, strict64, b, dir, iso, xml) == Valid
    ensures var digest := Recompute(c, b.originalHash, b.enrichedHash, b.prevChainHash);
      && digest.Some? && FromHex(b.chainHash) == Some(digest.value)
      && CountValid(c, dir, digest.value, b.signatures) >= 2 && KeysBehind(c, dir, digest.value, b.signatures) != {}
      && (|KeysBehind(c, dir, digest.value, b.signatures)| >= 2 <==> Mixed(c, dir, digest.value, b.signatures))
      && (DistinctFingerprints(b.signatures) ==>
            |KeysBehind(c, dir, digest.value, b.signatures)| == CountValid(c, dir, digest.value, b.signatures))
  {
    hide EntryValid, KeyBehind, Recompute, PayloadsMatch, KeysBehind, Mixed;
    var digest := Recompute(c, b.originalHash, b.enrichedHash, b.prevChainHash).value;
    CountIsKeysIffUnshared(c, dir, digest, b.signatures);
    TwoKeysIffMixed(c, dir, digest, b.signatures);
    SomeKey(c, dir, digest, b.signatures);
  }

  lemma {:induction false} SomeKey(c: Suite, dir: seq<Bytes>, digest: Bytes, sigs: seq<SignatureEntry>)
    requires CountValid(c, dir, digest, sigs) > 0
    ensures KeysBehind(c, dir, digest, sigs) != {}
  {
    hide EntryValid, KeyBehind;
    var front, e := sigs[..|sigs| - 1], sigs[|sigs| - 1];
    assert sigs == front + [e];
    KeysSnoc(c, dir, digest, front, e);
    if EntryValid(c, dir, digest, e) {
      assert KeyBehind(c, dir, digest, e) in KeysBehind(c, dir, digest, sigs);
    } else {
      SomeKey(c, dir, digest, front);
    }
  }

  /** And one honest entry listed twice is a quorum of one key. */
  lemma RepeatedEntryCountsTwice(c: Suite, strict64: Bytes -> Option<Bytes>, dir: seq<Bytes>, w: Node,
                                 b: Bundle, e: SignatureEntry)
    requires Lawful(c) && KeysPresent(c, dir, [w])
    requires IsHexDigest(b.originalHash) && IsHexDigest(b.enrichedHash) && IsHexDigest(b.prevChainHash)
    requires b == BundleOf(c, b.bundleId, b.originalHash, b.enrichedHash, b.prevChainHash, [e, e])
    requires Honest(c, e, w, CoordinationHash(c.H, b.originalHash, b.enrichedHash, b.prevChainHash))
    ensures VerdictOf(c, strict64, b, dir, None, None) == Valid
    ensures KeysBehind(c, dir, CoordinationHash(c.H, b.originalHash, b.enrichedHash, b.prevChainHash), b.signatures)
         == {w.pub}
  {
    hide Lawful, EntryValid, Honest, CoordinationHash, Recompute, Raises, CountValid;
    var digest := CoordinationHash(c.H, b.originalHash, b.enrichedHash, b.prevChainHash);
    SameDigest(c, b.originalHash, b.enrichedHash, b.prevChainHash);
    HonestIsValid(c, dir, [w], digest, e, 0);
    AllCounted(c, dir, digest, [e, e]);
    assert b.signatures == [e, e] && e in b.signatures;
    assert KeyBehind(c, dir, digest, e) == w.pub;
  }
}
