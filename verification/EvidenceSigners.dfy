/**
  Who signed: public keys in hexadecimal, the addresses derived from them, the set of trusted
  signers, and exactly which envelopes are accepted.
*/
module EvidenceSigners {
  import opened Bytes
  import opened JsonText
  import opened CanonicalJson
  import opened EvidenceText
  import opened Evidence
  import opened EvidenceBinding
  import opened EvidenceCompleteness
  import Base58
  import JsonReader
  import Trimming

  // ---------------------------------------------------------------------
  // Hexadecimal
  // ---------------------------------------------------------------------

  /** `t` spells the bytes, two hexadecimal digits each, in either case. */
  predicate Spelling(t: Text, bs: seq<byte>) {
    && |t| == 2 * |bs|
    && forall i :: 0 <= i < |bs| ==>
         JsonReader.HexValue(t[2 * i]) == Some(bs[i] / 16) && JsonReader.HexValue(t[2 * i + 1]) == Some(bs[i] % 16)
  }

  lemma HexMeans(u: Unit)
    ensures IsHex(u) <==> JsonReader.HexValue(u).Some?
    ensures IsHex(u) ==> JsonReader.HexValue(u) == Some(Nibble(u))
  {}

  lemma UnhexIff(t: Text, bs: seq<byte>)
    ensures Unhex(t) == Ok(bs) <==> Spelling(t, bs)
  {
    forall u: Unit ensures IsHex(u) <==> JsonReader.HexValue(u).Some?
      ensures IsHex(u) ==> JsonReader.HexValue(u) == Some(Nibble(u))
    {
      HexMeans(u);
    }
    hide IsHex, Nibble, JsonReader.HexValue;
    if Spelling(t, bs) {
      forall i | 0 <= i < |t| ensures IsHex(t[i]) {
        var k := i / 2;
        assert 0 <= k < |bs| && (i == 2 * k || i == 2 * k + 1);
        assert JsonReader.HexValue(t[2 * k]).Some? && JsonReader.HexValue(t[2 * k + 1]).Some?;
      }
      assert Unhex(t).value == bs;
    }
  }

  predicate HasPrefix(t: Text, clean: Text) {
    t == [48, 120] + clean || t == [48, 88] + clean
  }

  /** `hexToBytes`: white space around the text and one "0x" in front do not count. A text is
      read as these bytes if and only if what is left spells them, and it is not blank. */
  lemma HexIff(host: Host, t: Text, bs: seq<byte>)
    ensures HexToBytes(host, t) == Ok(bs) <==>
            && Trim(t) != []
            && ((Spelling(Trim(t), bs) && !StartsWithPrefix(Trim(t))) ||
                exists clean :: HasPrefix(Trim(t), clean) && Spelling(clean, bs))
  {
    hide Spelling, Trim;
    var trimmed := Trim(t);
    if trimmed != [] {
      var clean := WithoutPrefix(trimmed);
      assert HexToBytes(host, t) == Unhex(clean);
      UnhexIff(clean, bs);
      if StartsWithPrefix(trimmed) {
        assert trimmed == trimmed[..2] + clean && HasPrefix(trimmed, clean);
        forall c | HasPrefix(trimmed, c) ensures c == clean {
          assert c == trimmed[2..];
        }
      }
    }
  }

  predicate StartsWithPrefix(t: Text) { |t| >= 2 && t[0] == 48 && (t[1] == 120 || t[1] == 88) }

  // ---------------------------------------------------------------------
  // Addresses and trusted signers
  // ---------------------------------------------------------------------

  /** An address is base58 of thirty-two bytes: the scheme, then the start of the key's digest. */
  lemma AddressSays(host: Host, key: seq<byte>)
    ensures Base58.Decode(Address(host, key)).Some?
    ensures var bs := Base58.Decode(Address(host, key)).value;
            |bs| == 32 && bs[0] == 1 && bs[1..] == host.digest(key)[..31]
  {
    Base58.DecodeInvertsEncode([SCHEME_ML_DSA_65] + host.digest(key)[..31]);
  }

  /** The trusted set is that of the normalized entries, and an entry without text is an error. */
  lemma {:induction false} TrustedSetIs(host: Host, signers: seq<Option<Json>>, t: Text)
    ensures TrustedSet(host, signers).Ok? <==> forall i :: 0 <= i < |signers| ==> NonEmpty(host, signers[i]).Ok?
    ensures TrustedSet(host, signers).Ok? ==>
              (t in TrustedSet(host, signers).value <==>
               exists i :: 0 <= i < |signers| && NonEmpty(host, signers[i]) == Ok(t))
    decreases signers
  {
    hide NonEmpty;
    if signers != [] {
      var rest := signers[1..];
      TrustedSetIs(host, rest, t);
      assert forall i :: 0 <= i < |rest| ==> rest[i] == signers[i + 1];
      assert forall i :: 0 < i < |signers| ==> signers[i] == rest[i - 1];
    }
  }

  // ---------------------------------------------------------------------
  // Exactly what is accepted
  // ---------------------------------------------------------------------

  /** The first of the three spellings that is present. */
  predicate Shows(entry: RawEntry, sig: PqSignature) {
    && entry.RawEntry?
    && (entry.signature == Signature(sig) ||
        (entry.signature.Absent? && entry.snake == Signature(sig)) ||
        (entry.signature.Absent? && entry.snake.Absent? && entry.camel == Signature(sig)))
  }

  /** The entry shows a signature on the message that verifies, by a key whose address is the signer,
      who is the one the entry names if it names any, and is trusted if only some are. */
  ghost predicate Counts(host: Host, message: Text, trusted: Option<set<Text>>, entry: RawEntry, signer: Text) {
    && (trusted.Some? ==> signer in trusted.value)
    && exists sig ::
         && Shows(entry, sig) && PublicKey(host, sig).Ok?
         && signer == Address(host, PublicKey(host, sig).value)
         && (Truthy(host, entry.signer) ==> NonEmpty(host, entry.signer) == Ok(signer))
         && host.verify(message, sig, PublicKey(host, sig).value)
  }

  lemma EntryIff(host: Host, c: Checked, entry: RawEntry, seen: set<Text>, signer: Text)
    ensures CheckEntry(host, c, entry, seen) == Ok(signer) <==>
            signer !in seen && Counts(host, c.message, c.trusted, entry, signer)
  {
    hide Address, HexToBytes, NonEmpty, Truthy, Trimmed;
    if entry.RawEntry? {
      var field := if !entry.signature.Absent? then entry.signature
                   else if !entry.snake.Absent? then entry.snake else entry.camel;
      if field.Signature? {
        assert Shows(entry, field.value);
        var key := PublicKey(host, field.value);
        if key.Ok? {
          AddressTrimmed(host, key.value);
          NonEmptyTwice(host, Address(host, key.value));
        }
      }
    }
  }

  lemma {:induction false} EntriesIff(host: Host, c: Checked, entries: seq<RawEntry>, seen: set<Text>,
                                      signers: seq<Text>)
    ensures CheckEntries(host, c, entries, seen) == Ok(signers) <==>
            && |signers| == |entries| && AllDifferent(signers)
            && forall i :: 0 <= i < |signers| ==>
                 signers[i] !in seen && Counts(host, c.message, c.trusted, entries[i], signers[i])
    decreases |entries|
  {
    hide CheckEntry, Counts;
    if entries == [] {
      assert |signers| == 0 ==> signers == [];
    } else if signers != [] {
      EntryIff(host, c, entries[0], seen, signers[0]);
      EntriesIff(host, c, entries[1..], seen + {signers[0]}, signers[1..]);
      assert signers == [signers[0]] + signers[1..];
      assert forall i :: 0 <= i < |signers| - 1 ==> signers[1..][i] == signers[i + 1];
      assert forall i :: 0 < i < |signers| ==> signers[i] == signers[1..][i - 1];
      assert forall i :: 0 < i < |entries| ==> entries[i] == entries[1..][i - 1];
      AllDifferentCons(signers);
    }
  }

  lemma AllDifferentCons(s: seq<Text>)
    requires s != []
    ensures AllDifferent(s) <==> AllDifferent(s[1..]) && forall i :: 0 < i < |s| ==> s[i] != s[0]
  {
    var rest := s[1..];
    assert forall i :: 0 <= i < |rest| ==> rest[i] == s[i + 1];
    assert forall i :: 0 < i < |s| ==> s[i] == rest[i - 1];
  }

  /** `n` is what the envelope asks for, or more if the verifier asks for more. */
  predicate IsThreshold(host: Host, e: Envelope, options: Options, n: nat) {
    if options.requiredThreshold.None? then n == e.fields.requiredSignatures
    else
      var policy := Positive(host, options.requiredThreshold);
      && policy.Ok?
      && n >= policy.value && n >= e.fields.requiredSignatures
      && (n == policy.value || n == e.fields.requiredSignatures)
  }

  /** The trusted signers, if only some are trusted. */
  function TrustedOf(host: Host, options: Options): Option<set<Text>>
    requires options.trustedSigners.Some? ==> TrustedSet(host, options.trustedSigners.value).Ok?
  {
    if options.trustedSigners.None? then None else Some(TrustedSet(host, options.trustedSigners.value).value)
  }

  /** The receipt is right, and the envelope deserves it. */
  ghost predicate Deserves(host: Host, e: Envelope, options: Options, seen: Option<set<Text>>, r: Receipt) {
    && HashCanonical(host, e.payload) == Ok(e.fields.payloadHash)
    && HashCanonical(host, IdBody(e.fields)) == Ok(e.evidenceId)
    && Expects(host, e, options)
    && (seen.Some? ==> e.evidenceId !in seen.value)
    && IsThreshold(host, e, options, r.requiredThreshold) && |r.validSigners| >= r.requiredThreshold
    && |r.validSigners| == |e.signatures| && AllDifferent(r.validSigners)
    && (options.trustedSigners.Some? ==>
          && TrustedSet(host, options.trustedSigners.value).Ok?
          && |TrustedSet(host, options.trustedSigners.value).value| >= r.requiredThreshold)
    && (forall i :: 0 <= i < |r.validSigners| ==>
          Counts(host, MessageOf(e), TrustedOf(host, options), e.signatures[i], r.validSigners[i]))
    && r.evidenceId == e.evidenceId && r.kind == e.fields.kind && r.domain == e.fields.domain
    && r.payloadHash == e.fields.payloadHash
  }

  lemma ThresholdIff(host: Host, e: Envelope, options: Options, n: nat)
    ensures Threshold(host, e, options) == Ok(n) <==> IsThreshold(host, e, options, n)
  {
    hide Positive;
  }

  lemma ExpectationsIff(host: Host, e: Envelope, options: Options)
    ensures CheckExpectations(host, e, options).Ok? && options.hasVerifier <==> Expects(host, e, options)
  {
    hide Kind, NormalizeDomain, Slot, Truthy, StableStringify, DomainJson;
    if options.expectedDomain.Some? && NormalizeDomain(host, options.expectedDomain.value).Ok? {
      DomainTextBinds(e.fields.domain, NormalizeDomain(host, options.expectedDomain.value).value);
    }
  }

  lemma BodyIff(host: Host, raw: RawEvidence, e: Envelope)
    ensures CheckBody(host, raw) == Ok(e) <==>
            && CheckShape(host, raw) == Ok(e) && HashCanonical(host, e.payload) == Ok(e.fields.payloadHash)
            && HashCanonical(host, IdBody(e.fields)) == Ok(e.evidenceId)
  {
    hide CheckShape, HashCanonical, IdBody;
  }

  /** What the checks before the signatures let through. */
  lemma PrecheckIff(host: Host, raw: RawEvidence, options: Options, seen: Option<set<Text>>, c: Checked)
    ensures Precheck(host, raw, options, seen) == Ok(c) <==>
            && CheckBody(host, raw) == Ok(c.envelope) && Expects(host, c.envelope, options)
            && (seen.Some? ==> c.envelope.evidenceId !in seen.value)
            && IsThreshold(host, c.envelope, options, c.threshold)
            && Trusted(host, options, c.threshold) == Ok(c.trusted)
            && c.message == MessageOf(c.envelope)
  {
    hide CheckBody, CheckExpectations, Expects, IsThreshold, Threshold, Trusted, Message, MessageOf;
    var body := CheckBody(host, raw);
    if body.Ok? {
      var e := body.value;
      ExpectationsIff(host, e, options);
      ThresholdIff(host, e, options, c.threshold);
      if Threshold(host, e, options).Ok? {
        ThresholdIff(host, e, options, Threshold(host, e, options).value);
      }
      MessageDefined(e.fields, e.evidenceId);
      MessageIs(e);
      ExpectsVerifier(host, e, options);
    }
  }

  lemma ExpectsVerifier(host: Host, e: Envelope, options: Options)
    ensures Expects(host, e, options) ==> options.hasVerifier
  {}

  lemma MessageIs(e: Envelope)
    ensures Message(e.fields, e.evidenceId).Ok? ==> Message(e.fields, e.evidenceId) == Ok(MessageOf(e))
  {
    hide StableStringify, SigningBody;
  }

  /** `verifyEvidenceEnvelope` gives a receipt if and only if the envelope has the right shape and
      deserves exactly that receipt. */
  lemma VerifiedIff(host: Host, raw: RawEvidence, options: Options, seen: Option<set<Text>>, r: Receipt)
    ensures Verified(host, raw, options, seen) == Ok(r) <==>
            CheckShape(host, raw).Ok? && Deserves(host, CheckShape(host, raw).value, options, seen, r)
  {
    hide CheckShape, CheckBody, Precheck, CheckEntries, Expects, IsThreshold, HashCanonical, IdBody, MessageOf;
    hide Counts, AllDifferent, TrustedSet;
    if Verified(host, raw, options, seen) == Ok(r) {
      var c := Precheck(host, raw, options, seen).value;
      PrecheckIff(host, raw, options, seen, c);
      BodyIff(host, raw, c.envelope);
      EntriesIff(host, c, c.envelope.signatures, {}, r.validSigners);
    }
    if CheckShape(host, raw).Ok? && Deserves(host, CheckShape(host, raw).value, options, seen, r) {
      var e := CheckShape(host, raw).value;
      var c := Checked(e, r.requiredThreshold, TrustedOf(host, options), MessageOf(e));
      BodyIff(host, raw, e);
      PrecheckIff(host, raw, options, seen, c);
      EntriesIff(host, c, e.signatures, {}, r.validSigners);
    }
  }
}
