/** Evidence that is created and signed here verifies. */
module EvidenceCompleteness {
  import opened Bytes
  import opened JsonText
  import opened CanonicalJson
  import opened CanonicalJsonProofs
  import opened EvidenceText
  import opened Evidence
  import opened EvidenceBinding
  import Base58

  // ---------------------------------------------------------------------
  // Handing an envelope back in
  // ---------------------------------------------------------------------

  predicate SafeInteger(n: nat, least: nat) { least <= n <= MAX_SAFE_INTEGER }

  /** Normalizing these fields again changes nothing. */
  predicate Fixed(host: Host, f: Fields) {
    && SafeInteger(f.schemaVersion, 1) && SafeInteger(f.slot, 0) && SafeInteger(f.issuedAtMs, 0)
    && SafeInteger(f.expiresAtSlot, 0) && SafeInteger(f.requiredSignatures, 1)
    && Kind(host, Given(f.kind)) == Ok(f.kind)
    && NormalizeDomain(host, RereadDomain(f.domain)) == Ok(f.domain)
    && ManifestHash(host, Given(f.manifestHash)) == Ok(f.manifestHash)
    && ManifestHash(host, Given(f.payloadHash)) == Ok(f.payloadHash)
  }

  lemma IntegerTwice(host: Host, n: nat, least: nat)
    requires SafeInteger(n, least)
    ensures Integer(host, Some(Num(n)), least) == Ok(n)
  {}

  lemma DraftFixed(host: Host, d: Draft)
    requires Lawful(host) && DraftFields(host, d).Ok?
    ensures Fixed(host, DraftFields(host, d).value)
  {
    hide Kind, NormalizeDomain, ManifestHash, StableStringify, Integer, Lawful;
    KindTwice(host, d.kind);
    DomainTwice(host, d.domain);
    ManifestHashTwice(host, CamelFirst(d.manifestHash));
    DigestFixed(host, d.payload);
  }

  lemma DigestFixed(host: Host, j: Json)
    requires Lawful(host) && HashCanonical(host, j).Ok?
    ensures ManifestHash(host, Given(HashCanonical(host, j).value)) == HashCanonical(host, j)
  {
    hide StableStringify, ManifestHash;
    HashTwice(host, HashCanonical(host, j).value);
  }

  lemma RereadFields(host: Host, e: Envelope)
    requires Fixed(host, e.fields)
    ensures RawFields(host, Reread(e)) == Ok(e.fields)
  {
    hide Kind, NormalizeDomain, ManifestHash, Integer;
    var f := e.fields;
    IntegerTwice(host, f.schemaVersion, 1);
    IntegerTwice(host, f.slot, 0);
    IntegerTwice(host, f.issuedAtMs, 0);
    IntegerTwice(host, f.expiresAtSlot, 0);
    IntegerTwice(host, f.requiredSignatures, 1);
  }

  /** What `createUnsignedEvidence` returns. */
  lemma Created(host: Host, d: Draft)
    requires Create(host, d).Ok?
    ensures DraftFields(host, d).Ok? && Canonicalize(d.payload).Some?
    ensures var e := Create(host, d).value;
            && e.fields == DraftFields(host, d).value && e.payload == Canonicalize(d.payload).value
            && e.signatures == []
            && e.fields.slot < e.fields.expiresAtSlot && e.fields.schemaVersion == SCHEMA_VERSION
            && Ok(e.evidenceId) == HashCanonical(host, IdBody(e.fields))
            && Ok(e.fields.payloadHash) == HashCanonical(host, d.payload)
  {
    hide Kind, NormalizeDomain, ManifestHash, Integer, HashCanonical, Canonicalize, IdBody;
  }

  /** A created envelope passes the shape check unchanged, exactly when no object in its payload
      gave "__proto__" an object or an array; signatures added to it do not matter. */
  lemma CreatedShapeIff(host: Host, d: Draft, signatures: seq<RawEntry>)
    requires Lawful(host) && WellFormed(d.payload) && Create(host, d).Ok?
    ensures var e := Create(host, d).value.(signatures := signatures);
            CheckShape(host, Reread(e)) == if Tame(d.payload) then Ok(e) else Err(NotCanonical)
  {
    hide Kind, NormalizeDomain, ManifestHash, Integer, Canonicalize, IdBody, WellFormed, Tame, Lawful, Create;
    hide DraftFields, RawFields, HashCanonical;
    Created(host, d);
    DraftFixed(host, d);
    var e := Create(host, d).value.(signatures := signatures);
    RereadFields(host, e);
    CanonicalizeIdempotentIff(d.payload);
    DigestFixed(host, IdBody(e.fields));
  }

  /** The draft that asks for these fields. */
  function DraftOf(f: Fields, payload: Json): Draft {
    var number := (n: nat) => Spelled(None, Some(Num(n)));
    Draft(Given(f.kind), RereadDomain(f.domain), payload, Some(Num(f.slot)), number(f.issuedAtMs),
          number(f.expiresAtSlot),
          Spelled(None, Given(f.manifestHash)), number(f.requiredSignatures))
  }

  /** A draft that asks for normalized fields gets exactly them, with the payload's hash and the
      id of all of them. */
  lemma CreateMakes(host: Host, f: Fields, payload: Json)
    requires Fixed(host, f) && f.schemaVersion == SCHEMA_VERSION && f.slot < f.expiresAtSlot
    requires HashCanonical(host, payload) == Ok(f.payloadHash)
    ensures Canonicalize(payload).Some?
    ensures HashCanonical(host, IdBody(f)).Ok?
    ensures Create(host, DraftOf(f, payload))
        == Ok(Envelope(f, Canonicalize(payload).value, [], HashCanonical(host, IdBody(f)).value))
  {
    hide Kind, NormalizeDomain, ManifestHash, Integer, Canonicalize, Print, IdBody;
    IdTextBinds(f, f);
    IntegerTwice(host, f.slot, 0);
    IntegerTwice(host, f.issuedAtMs, 0);
    IntegerTwice(host, f.expiresAtSlot, 0);
    IntegerTwice(host, f.requiredSignatures, 1);
    assert DraftFields(host, DraftOf(f, payload)) == Ok(f);
  }

  // ---------------------------------------------------------------------
  // Create, sign, verify
  // ---------------------------------------------------------------------

  /** The signature scheme accepts what this key signs. */
  predicate Honest(host: Host, message: Text, key: Keypair) {
    var sig := host.sign(message, key);
    PublicKey(host, sig).Ok? && host.verify(message, sig, PublicKey(host, sig).value)
  }

  function SignerFor(host: Host, message: Text, key: Keypair): Result<Text> {
    SignerOf(host, host.sign(message, key))
  }

  lemma AddressTrimmed(host: Host, key: seq<byte>)
    ensures Address(host, key) != [] && Trimmed(Address(host, key))
  {
    hide Base58.Encoded;
    var bs := [SCHEME_ML_DSA_65] + host.digest(key)[..31];
    Base58.EncodedNonEmpty(bs);
    var t := Base58.Encoded(bs);
    assert Base58.InAlphabet(t[0]) && Base58.InAlphabet(t[|t| - 1]);
  }

  /** An entry made by `signEvidenceEnvelope` is read back as it was written. */
  lemma SignedEntry(host: Host, message: Text, key: Keypair)
    requires SignWith(host, message, key).Ok?
    ensures SignerFor(host, message, key).Ok?
    ensures NormalizeEntry(host, SignWith(host, message, key).value)
         == Ok((SignerFor(host, message, key).value, host.sign(message, key)))
  {
    hide Address, HexToBytes, NonEmpty, Trimmed;
    var sig := host.sign(message, key);
    AddressTrimmed(host, PublicKey(host, sig).value);
    NonEmptyTwice(host, SignerFor(host, message, key).value);
  }

  /** Distinct honest signers, all trusted, pass the signature loop one by one. */
  lemma {:induction false} HonestEntriesPass(host: Host, c: Checked, keys: seq<Keypair>, signers: seq<Text>,
                                             seen: set<Text>)
    requires SignAll(host, c.message, keys).Ok? && |signers| == |keys|
    requires forall i :: 0 <= i < |keys| ==>
        Honest(host, c.message, keys[i]) && SignerFor(host, c.message, keys[i]) == Ok(signers[i])
    requires forall i, j :: 0 <= i < j < |signers| ==> signers[i] != signers[j]
    requires forall i :: 0 <= i < |signers| ==>
        signers[i] !in seen && (c.trusted.Some? ==> signers[i] in c.trusted.value)
    ensures CheckEntries(host, c, SignAll(host, c.message, keys).value, seen) == Ok(signers)
    decreases |keys|
  {
    hide SignWith, NormalizeEntry, SignerOf, PublicKey;
    if keys != [] {
      var entries := SignAll(host, c.message, keys).value;
      assert Honest(host, c.message, keys[0]);
      SignedEntry(host, c.message, keys[0]);
      assert CheckEntry(host, c, entries[0], seen) == Ok(signers[0]);
      assert entries[1..] == SignAll(host, c.message, keys[1..]).value;
      HonestEntriesPass(host, c, keys[1..], signers[1..], seen + {signers[0]});
      assert signers == [signers[0]] + signers[1..];
    }
  }

  /** The verifier's options do not rule this envelope out. */
  predicate Expects(host: Host, e: Envelope, options: Options) {
    && options.hasVerifier
    && (Truthy(host, options.expectedKind) ==> Kind(host, options.expectedKind) == Ok(e.fields.kind))
    && (options.expectedDomain.Some? ==> NormalizeDomain(host, options.expectedDomain.value) == Ok(e.fields.domain))
    && (options.currentSlot.Some? ==>
         Slot(host, options.currentSlot).Ok? && Slot(host, options.currentSlot).value <= e.fields.expiresAtSlot)
  }

  predicate AllDifferent(s: seq<Text>) {
    forall i, j :: 0 <= i < j < |s| ==> s[i] != s[j]
  }

  lemma {:induction false} DistinctFit(s: seq<Text>, t: set<Text>)
    requires AllDifferent(s) && forall i :: 0 <= i < |s| ==> s[i] in t
    ensures |s| <= |t|
    decreases |s|
  {
    if s != [] {
      var rest := t - {s[0]};
      forall i | 0 <= i < |s| - 1 ensures s[1..][i] in rest {
        assert s[1..][i] == s[i + 1];
      }
      DistinctFit(s[1..], rest);
    }
  }

  /** The conditions under which signed evidence verifies. */
  ghost predicate Ready(host: Host, e: Envelope, message: Text, keys: seq<Keypair>, signers: seq<Text>,
                        options: Options, seen: Option<set<Text>>) {
    && Expects(host, e, options)
    && (seen.Some? ==> e.evidenceId !in seen.value)
    && Threshold(host, e, options).Ok? && Threshold(host, e, options).value <= |keys|
    && |signers| == |keys| && AllDifferent(signers)
    && (forall i :: 0 <= i < |keys| ==>
         Honest(host, message, keys[i]) && SignerFor(host, message, keys[i]) == Ok(signers[i]))
    && (options.trustedSigners.Some? ==>
          && TrustedSet(host, options.trustedSigners.value).Ok?
          && forall i :: 0 <= i < |signers| ==> signers[i] in TrustedSet(host, options.trustedSigners.value).value)
  }

  lemma BodyPasses(host: Host, d: Draft, signatures: seq<RawEntry>)
    requires Lawful(host) && WellFormed(d.payload) && Tame(d.payload) && Create(host, d).Ok?
    ensures CheckBody(host, Reread(Create(host, d).value.(signatures := signatures)))
         == Ok(Create(host, d).value.(signatures := signatures))
  {
    hide Kind, NormalizeDomain, ManifestHash, Integer, IdBody, WellFormed, Tame, Lawful, Create, DraftFields;
    hide CheckShape, Print, Canonicalize;
    CreatedShapeIff(host, d, signatures);
    Created(host, d);
    CanonicalizeIdempotentIff(d.payload);
  }

  lemma PrecheckPasses(host: Host, raw: RawEvidence, e: Envelope, message: Text, keys: seq<Keypair>, signers: seq<Text>,
                       options: Options, seen: Option<set<Text>>)
    requires CheckBody(host, raw) == Ok(e) && Message(e.fields, e.evidenceId) == Ok(message)
    requires Ready(host, e, message, keys, signers, options, seen)
    ensures Precheck(host, raw, options, seen).Ok?
    ensures var c := Precheck(host, raw, options, seen).value;
            && c.envelope == e && c.message == message && c.threshold == Threshold(host, e, options).value
            && (c.trusted.Some? ==> forall i :: 0 <= i < |signers| ==> signers[i] in c.trusted.value)
  {
    hide CheckBody, Message, Kind, NormalizeDomain, Slot, Threshold, TrustedSet, Honest, SignerFor;
    hide StableStringify, DomainJson, AllDifferent, Truthy;
    if options.trustedSigners.Some? {
      DistinctFit(signers, TrustedSet(host, options.trustedSigners.value).value);
    }
  }

  lemma {:induction false} HonestSign(host: Host, message: Text, keys: seq<Keypair>)
    requires forall i :: 0 <= i < |keys| ==>
               Honest(host, message, keys[i])
                 && (keys[i].address == [] || Ok(keys[i].address) == SignerFor(host, message, keys[i]))
    ensures SignAll(host, message, keys).Ok?
    decreases |keys|
  {
    hide PublicKey, Address;
    if keys != [] {
      assert Honest(host, message, keys[0]);
      HonestSign(host, message, keys[1..]);
    }
  }

  /** Evidence created here can be signed, and once enough distinct, honest, trusted signers
      have, it verifies wherever it is expected, unexpired and not yet consumed. */
  lemma CreateSignVerify(host: Host, d: Draft, keys: seq<Keypair>, signers: seq<Text>, options: Options,
                         seen: Option<set<Text>>)
    requires Lawful(host) && WellFormed(d.payload) && Tame(d.payload) && Create(host, d).Ok?
    requires Ready(host, Create(host, d).value, MessageOf(Create(host, d).value), keys, signers, options, seen)
    requires forall i :: 0 <= i < |keys| ==> keys[i].address == [] || keys[i].address == signers[i]
    ensures Sign(host, Reread(Create(host, d).value), keys).Ok?
    ensures Verified(host, Reread(Sign(host, Reread(Create(host, d).value), keys).value), options, seen)
         == Ok(Accepts(host, Create(host, d).value, options, signers))
  {
    hide WellFormed, Tame, Lawful, Create, Sign, CheckBody, Precheck, Expects, TrustedSet, CheckEntries, Honest;
    hide SignerFor, SignWith, SignAll, Reread, MessageOf, Threshold;
    var e, message := Create(host, d).value, MessageOf(Create(host, d).value);
    MessageDefined(e.fields, e.evidenceId);
    ThresholdCovers(host, e, options);
    SignPasses(host, d, keys, signers);
    var entries := SignAll(host, message, keys).value;
    var signed := e.(signatures := entries);
    BodyPasses(host, d, entries);
    ReadyAgain(host, e, entries, message, keys, signers, options, seen);
    PrecheckPasses(host, Reread(signed), signed, message, keys, signers, options, seen);
    HonestEntriesPass(host, Precheck(host, Reread(signed), options, seen).value, keys, signers, {});
  }

  /** The threshold is the larger of the verifier's and the envelope's own. */
  lemma ThresholdCovers(host: Host, e: Envelope, options: Options)
    requires Threshold(host, e, options).Ok?
    ensures Threshold(host, e, options).value >= e.fields.requiredSignatures
    ensures options.requiredThreshold.Some? ==>
              && Positive(host, options.requiredThreshold).Ok?
              && Threshold(host, e, options).value >= Positive(host, options.requiredThreshold).value
  {
    hide Positive;
  }

  lemma SignPasses(host: Host, d: Draft, keys: seq<Keypair>, signers: seq<Text>)
    requires Lawful(host) && WellFormed(d.payload) && Tame(d.payload) && Create(host, d).Ok?
    requires var e := Create(host, d).value;
             && e.fields.requiredSignatures <= |keys| == |signers|
             && forall i :: 0 <= i < |keys| ==>
                  && Honest(host, MessageOf(e), keys[i]) && SignerFor(host, MessageOf(e), keys[i]) == Ok(signers[i])
                  && (keys[i].address == [] || keys[i].address == signers[i])
    ensures var e := Create(host, d).value;
            && SignAll(host, MessageOf(e), keys).Ok?
            && Sign(host, Reread(e), keys) == Ok(e.(signatures := SignAll(host, MessageOf(e), keys).value))
  {
    hide WellFormed, Tame, Lawful, Create, CheckShape, Message, Honest, SignerFor, SignAll, Reread, MessageOf;
    hide Kind, NormalizeDomain, ManifestHash, DraftFields;
    var e := Create(host, d).value;
    MessageDefined(e.fields, e.evidenceId);
    CreatedShapeIff(host, d, []);
    Created(host, d);
    DraftFixed(host, d);
    assert e.(signatures := []) == e;
    HonestSign(host, MessageOf(e), keys);
  }

  /** The receipt for this envelope and these signers. */
  function Accepts(host: Host, e: Envelope, options: Options, signers: seq<Text>): Receipt
    requires Threshold(host, e, options).Ok?
  {
    Receipt(e.evidenceId, e.fields.kind, e.fields.domain, e.fields.payloadHash, signers,
            Threshold(host, e, options).value)
  }

  lemma ReadyAgain(host: Host, e: Envelope, entries: seq<RawEntry>, message: Text, keys: seq<Keypair>,
                   signers: seq<Text>, options: Options, seen: Option<set<Text>>)
    requires Ready(host, e, message, keys, signers, options, seen)
    ensures Ready(host, e.(signatures := entries), message, keys, signers, options, seen)
    ensures Threshold(host, e.(signatures := entries), options) == Threshold(host, e, options)
  {
    hide Kind, NormalizeDomain, Integer, TrustedSet, Honest, SignerFor, AllDifferent, Truthy;
  }
}
