/**
  PQ evidence envelopes: creating, signing and verifying them, with a quorum of signers and a
  set of evidence ids already consumed.
*/
module Evidence {
  import opened Bytes
  import opened JsonText
  import opened CanonicalJson
  import opened EvidenceText
  import Base58

  const SCHEMA_VERSION: nat := 1

  const SCHEME_ML_DSA_65: byte := 1

  // ---------------------------------------------------------------------
  // Envelopes
  // ---------------------------------------------------------------------

  /** A signature field of a raw entry: falsy, truthy but no object, or an object. */
  datatype SignatureField = Absent | Junk | Signature(value: PqSignature)

  datatype RawEntry =
    | NoEntry
    | RawEntry(signer: Option<Json>, signature: SignatureField, snake: SignatureField, camel: SignatureField)

  /** The fields an evidence id covers. */
  datatype Fields = Fields(schemaVersion: nat, kind: Text, domain: Domain, slot: nat, issuedAtMs: nat,
                           expiresAtSlot: nat, manifestHash: Text, payloadHash: Text, requiredSignatures: nat)

  datatype Envelope = Envelope(fields: Fields, payload: Json, signatures: seq<RawEntry>, evidenceId: Text)

  /** An envelope as it comes from outside. */
  datatype RawEvidence =
    | NoEvidence
    | RawEvidence(schemaVersion: Option<Json>, kind: Option<Json>, domain: RawDomain, slot: Option<Json>,
                  issuedAtMs: Option<Json>, expiresAtSlot: Option<Json>, manifestHash: Option<Json>,
                  payloadHash: Option<Json>, requiredSignatures: Option<Json>, payload: Json,
                  signatures: Option<seq<RawEntry>>, evidenceId: Option<Json>)

  /** An envelope, handed back in. */
  function Reread(e: Envelope): RawEvidence {
    var f := e.fields;
    RawEvidence(Some(Num(f.schemaVersion)), Given(f.kind), RereadDomain(f.domain), Some(Num(f.slot)),
                Some(Num(f.issuedAtMs)), Some(Num(f.expiresAtSlot)), Given(f.manifestHash), Given(f.payloadHash),
                Some(Num(f.requiredSignatures)), e.payload, Some(e.signatures), Given(e.evidenceId))
  }

  // ---------------------------------------------------------------------
  // Ids and signed messages
  // ---------------------------------------------------------------------

  function DomainJson(d: Domain): Json {
    Obj([Entry(Ascii("lichen_network"), Str(d.lichenNetwork)),
         Entry(Ascii("neo_network"), Str(d.neoNetwork)),
         Entry(Ascii("neo_chain_id"), Str(d.neoChainId)),
         Entry(Ascii("route"), Str(d.route)),
         Entry(Ascii("asset"), Str(d.asset)),
         Entry(Ascii("purpose"), Str(d.purpose))], true)
  }

  function IdEntries(f: Fields): seq<Entry> {
    [Entry(Ascii("schema_version"), Num(f.schemaVersion)),
     Entry(Ascii("kind"), Str(f.kind)),
     Entry(Ascii("domain"), DomainJson(f.domain)),
     Entry(Ascii("slot"), Num(f.slot)),
     Entry(Ascii("issued_at_ms"), Num(f.issuedAtMs)),
     Entry(Ascii("expires_at_slot"), Num(f.expiresAtSlot)),
     Entry(Ascii("manifest_hash"), Str(f.manifestHash)),
     Entry(Ascii("payload_hash"), Str(f.payloadHash)),
     Entry(Ascii("required_signatures"), Num(f.requiredSignatures))]
  }

  function IdBody(f: Fields): Json { Obj(IdEntries(f), true) }

  function SigningBody(f: Fields, evidenceId: Text): Json {
    Obj(IdEntries(f) + [Entry(Ascii("evidence_id"), Str(evidenceId))], true)
  }

  function HashCanonical(host: Host, j: Json): Result<Text> {
    var t := StableStringify(j);
    if t.None? then Err(NotCanonical) else Ok(host.hash(t.value))
  }

  function MessagePrefix(): Text { Ascii("Lichen:PQEvidence:v1:") }

  function Message(f: Fields, evidenceId: Text): Result<Text> {
    var t := StableStringify(SigningBody(f, evidenceId));
    if t.None? then Err(NotCanonical) else Ok(MessagePrefix() + t.value)
  }

  // ---------------------------------------------------------------------
  // Creating
  // ---------------------------------------------------------------------

  datatype Draft = Draft(kind: Option<Json>, domain: RawDomain, payload: Json, slot: Option<Json>, issuedAtMs: Spelled,
                         expiresAtSlot: Spelled, manifestHash: Spelled, requiredSignatures: Spelled)

  function DraftFields(host: Host, d: Draft): Result<Fields> {
    var kind :- Kind(host, d.kind);
    var domain :- NormalizeDomain(host, d.domain);
    var slot :- Slot(host, d.slot);
    var issuedAtMs :- Slot(host, CamelFirst(d.issuedAtMs));
    var expiresAtSlot :- Slot(host, CamelFirst(d.expiresAtSlot));
    var manifestHash :- ManifestHash(host, CamelFirst(d.manifestHash));
    var payloadHash :- HashCanonical(host, d.payload);
    var requiredSignatures :- Positive(host, CamelFirst(d.requiredSignatures));
    Ok(Fields(SCHEMA_VERSION, kind, domain, slot, issuedAtMs, expiresAtSlot, manifestHash, payloadHash,
              requiredSignatures))
  }

  /** `createUnsignedEvidence`. */
  function Create(host: Host, d: Draft): Result<Envelope> {
    var fields :- DraftFields(host, d);
    var payload := Canonicalize(d.payload);
    if payload.None? then Err(NotCanonical)
    else if fields.expiresAtSlot <= fields.slot then Err(Expiry)
    else
      var id :- HashCanonical(host, IdBody(fields));
      Ok(Envelope(fields, payload.value, [], id))
  }

  // ---------------------------------------------------------------------
  // The shape of an envelope
  // ---------------------------------------------------------------------

  function RawFields(host: Host, raw: RawEvidence): Result<Fields>
    requires raw.RawEvidence?
  {
    var schemaVersion :- Positive(host, raw.schemaVersion);
    var kind :- Kind(host, raw.kind);
    var domain :- NormalizeDomain(host, raw.domain);
    var slot :- Slot(host, raw.slot);
    var issuedAtMs :- Slot(host, raw.issuedAtMs);
    var expiresAtSlot :- Slot(host, raw.expiresAtSlot);
    var manifestHash :- ManifestHash(host, raw.manifestHash);
    var payloadHash :- ManifestHash(host, raw.payloadHash);
    var requiredSignatures :- Positive(host, raw.requiredSignatures);
    Ok(Fields(schemaVersion, kind, domain, slot, issuedAtMs, expiresAtSlot, manifestHash, payloadHash,
              requiredSignatures))
  }

  /** `verifyUnsignedShape`. */
  function CheckShape(host: Host, raw: RawEvidence): Result<Envelope> {
    if raw.NoEvidence? then Err(NotObject)
    else
      var fields :- RawFields(host, raw);
      var payload := Canonicalize(raw.payload);
      if payload.None? then Err(NotCanonical)
      else if fields.schemaVersion != SCHEMA_VERSION then Err(SchemaVersion)
      else if fields.expiresAtSlot <= fields.slot then Err(Expiry)
      else
        var id :- ManifestHash(host, raw.evidenceId);
        Ok(Envelope(fields, payload.value, if raw.signatures.Some? then raw.signatures.value else [], id))
  }

  // ---------------------------------------------------------------------
  // Signers
  // ---------------------------------------------------------------------

  predicate IsHex(u: Unit) { 48 <= u <= 57 || 65 <= u <= 70 || 97 <= u <= 102 }

  function Nibble(u: Unit): (n: nat)
    requires IsHex(u)
    ensures n < 16
  {
    if u <= 57 then u - 48 else if u <= 70 then u - 55 else u - 87
  }

  function Unhex(clean: Text): Result<seq<byte>> {
    if |clean| % 2 == 0 && forall i :: 0 <= i < |clean| ==> IsHex(clean[i]) then
      Ok(seq(|clean| / 2, i requires 0 <= i < |clean| / 2 => 16 * Nibble(clean[2 * i]) + Nibble(clean[2 * i + 1])))
    else Err(NotHex)
  }

  /** `hexToBytes`. */
  function HexToBytes(host: Host, t: Text): Result<seq<byte>> {
    var trimmed :- NonEmpty(host, Given(t));
    Unhex(WithoutPrefix(trimmed))
  }

  function PublicKey(host: Host, sig: PqSignature): Result<seq<byte>> {
    if sig.publicKey.None? then Err(NoPublicKey) else HexToBytes(host, sig.publicKey.value)
  }

  /** `publicKeyToAddressBytes` in base58. */
  function Address(host: Host, key: seq<byte>): Text {
    Base58.Encoded([SCHEME_ML_DSA_65] + host.digest(key)[..31])
  }

  /** `signerAddressFromPqSignature`. */
  function SignerOf(host: Host, sig: PqSignature): Result<Text> {
    var key :- PublicKey(host, sig);
    Ok(Address(host, key))
  }

  predicate Truthy(host: Host, v: Option<Json>) {
    && v.Some?
    && match v.value
       case Null => false
       case Bool(b) => b
       case Num(n) => n != 0
       case BigInt(n) => n != 0
       case Str(s) => s != []
       case Bad => host.truthy(v.value)
       case _ => true
  }

  /** `normalizeSignatureEntry`. */
  function NormalizeEntry(host: Host, e: RawEntry): Result<(Text, PqSignature)> {
    if e.NoEntry? then Err(NotObject)
    else
      var field := if !e.signature.Absent? then e.signature else if !e.snake.Absent? then e.snake else e.camel;
      if !field.Signature? then Err(NoSignature)
      else if Truthy(host, e.signer) then
        var signer :- NonEmpty(host, e.signer);
        Ok((signer, field.value))
      else
        var derived :- SignerOf(host, field.value);
        var signer :- NonEmpty(host, Given(derived));
        Ok((signer, field.value))
  }

  // ---------------------------------------------------------------------
  // Signing
  // ---------------------------------------------------------------------

  function SignWith(host: Host, message: Text, key: Keypair): Result<RawEntry> {
    var sig := host.sign(message, key);
    var signer :- SignerOf(host, sig);
    if key.address != [] && key.address != signer then Err(AddressMismatch)
    else Ok(RawEntry(Given(signer), Signature(sig), Absent, Absent))
  }

  function SignAll(host: Host, message: Text, keys: seq<Keypair>): (r: Result<seq<RawEntry>>)
    ensures r.Ok? ==> |r.value| == |keys|
  {
    hide SignWith;
    if keys == [] then Ok([])
    else
      var first :- SignWith(host, message, keys[0]);
      var rest :- SignAll(host, message, keys[1..]);
      Ok([first] + rest)
  }

  /** Each keypair makes the entry at its own place. */
  lemma {:induction false} SignAllEach(host: Host, message: Text, keys: seq<Keypair>, i: nat)
    requires SignAll(host, message, keys).Ok? && i < |keys|
    ensures SignWith(host, message, keys[i]) == Ok(SignAll(host, message, keys).value[i])
    decreases keys
  {
    hide SignWith;
    if i > 0 {
      SignAllEach(host, message, keys[1..], i - 1);
    }
  }

  /** `signEvidenceEnvelope`. */
  function Sign(host: Host, raw: RawEvidence, keys: seq<Keypair>): Result<Envelope> {
    if keys == [] then Err(NoSigners)
    else
      var e :- CheckShape(host, raw);
      if |keys| < e.fields.requiredSignatures then Err(TooFewSigners)
      else
        var message :- Message(e.fields, e.evidenceId);
        var signatures :- SignAll(host, message, keys);
        Ok(e.(signatures := signatures))
  }

  // ---------------------------------------------------------------------
  // Verifying
  // ---------------------------------------------------------------------

  datatype Options = Options(expectedKind: Option<Json>, expectedDomain: Option<RawDomain>, currentSlot: Option<Json>,
                             requiredThreshold: Option<Json>, trustedSigners: Option<seq<Option<Json>>>,
                             hasVerifier: bool, record: bool)

  datatype Receipt = Receipt(evidenceId: Text, kind: Text, domain: Domain, payloadHash: Text, validSigners: seq<Text>,
                             requiredThreshold: nat)

  function TrustedSet(host: Host, signers: seq<Option<Json>>): Result<set<Text>> {
    if signers == [] then Ok({})
    else
      var first :- NonEmpty(host, signers[0]);
      var rest :- TrustedSet(host, signers[1..]);
      Ok({first} + rest)
  }

  function Max(a: nat, b: nat): nat { if a >= b then a else b }

  /** What the checks before the signature loop hand to it. */
  datatype Checked = Checked(envelope: Envelope, threshold: nat, trusted: Option<set<Text>>, message: Text)

  function CheckBody(host: Host, raw: RawEvidence): Result<Envelope> {
    var e :- CheckShape(host, raw);
    var payloadHash :- HashCanonical(host, e.payload);
    if payloadHash != e.fields.payloadHash then Err(PayloadMismatch)
    else
      var id :- HashCanonical(host, IdBody(e.fields));
      if id != e.evidenceId then Err(IdMismatch) else Ok(e)
  }

  function CheckExpectations(host: Host, e: Envelope, options: Options): Result<()> {
    var _ :- if Truthy(host, options.expectedKind) then
               var kind :- Kind(host, options.expectedKind);
               if kind != e.fields.kind then Err(WrongKind) else Ok(())
             else Ok(());
    var _ :- if options.expectedDomain.Some? then
               var domain :- NormalizeDomain(host, options.expectedDomain.value);
               if StableStringify(DomainJson(e.fields.domain)) != StableStringify(DomainJson(domain))
               then Err(WrongDomain) else Ok(())
             else Ok(());
    if options.currentSlot.Some? then
      var slot :- Slot(host, options.currentSlot);
      if slot > e.fields.expiresAtSlot then Err(Stale) else Ok(())
    else Ok(())
  }

  function Threshold(host: Host, e: Envelope, options: Options): Result<nat> {
    var policy :- if options.requiredThreshold.Some? then Positive(host, options.requiredThreshold)
                  else Ok(e.fields.requiredSignatures);
    Ok(Max(policy, e.fields.requiredSignatures))
  }

  function Trusted(host: Host, options: Options, threshold: nat): Result<Option<set<Text>>> {
    if options.trustedSigners.None? then Ok(None)
    else
      var trusted :- TrustedSet(host, options.trustedSigners.value);
      if |trusted| < threshold then Err(TrustedTooSmall) else Ok(Some(trusted))
  }

  /** Everything `verifyEvidenceEnvelope` checks before it looks at signatures. */
  function Precheck(host: Host, raw: RawEvidence, options: Options, seen: Option<set<Text>>): Result<Checked> {
    var e :- CheckBody(host, raw);
    var _ :- CheckExpectations(host, e, options);
    if seen.Some? && e.evidenceId in seen.value then Err(Consumed)
    else if !options.hasVerifier then Err(NoVerifier)
    else
      var threshold :- Threshold(host, e, options);
      var trusted :- Trusted(host, options, threshold);
      var message :- Message(e.fields, e.evidenceId);
      Ok(Checked(e, threshold, trusted, message))
  }

  /** One turn of the signature loop. */
  function CheckEntry(host: Host, c: Checked, entry: RawEntry, seenSigners: set<Text>): Result<Text> {
    var normalized :- NormalizeEntry(host, entry);
    var (signer, sig) := normalized;
    var derived :- SignerOf(host, sig);
    if signer != derived then Err(SignerMismatch)
    else if signer in seenSigners then Err(DuplicateSigner)
    else if c.trusted.Some? && signer !in c.trusted.value then Err(Untrusted)
    else
      var key :- PublicKey(host, sig);
      if !host.verify(c.message, sig, key) then Err(BadSignature) else Ok(signer)
  }

  function CheckEntries(host: Host, c: Checked, entries: seq<RawEntry>, seenSigners: set<Text>): Result<seq<Text>> {
    if entries == [] then Ok([])
    else
      var signer :- CheckEntry(host, c, entries[0], seenSigners);
      var rest :- CheckEntries(host, c, entries[1..], seenSigners + {signer});
      Ok([signer] + rest)
  }

  function ReceiptOf(c: Checked, validSigners: seq<Text>): Receipt {
    var f := c.envelope.fields;
    Receipt(c.envelope.evidenceId, f.kind, f.domain, f.payloadHash, validSigners, c.threshold)
  }

  /** The outcome of `verifyEvidenceEnvelope` given the ids consumed so far. */
  function Verified(host: Host, raw: RawEvidence, options: Options, seen: Option<set<Text>>): Result<Receipt> {
    var c :- Precheck(host, raw, options, seen);
    var validSigners :- CheckEntries(host, c, c.envelope.signatures, {});
    if |validSigners| < c.threshold then Err(QuorumNotMet) else Ok(ReceiptOf(c, validSigners))
  }

  /** The ids consumed after a call with this outcome. */
  function Consumes(ids: set<Text>, options: Options, r: Result<Receipt>): set<Text> {
    if r.Ok? && options.record then ids + {r.value.evidenceId} else ids
  }

  /** The caller's `seenEvidenceIds`. */
  class SeenIds {
    var ids: set<Text>

    constructor ()
      ensures ids == {}
    {
      ids := {};
    }
  }

  /** `verifyEvidenceEnvelope`: the id is consumed only by a call that accepts and records. */
  method VerifyEnvelope(host: Host, raw: RawEvidence, options: Options, seen: SeenIds?) returns (r: Result<Receipt>)
    modifies seen
    ensures r == Verified(host, raw, options, if seen == null then None else Some(old(seen.ids)))
    ensures seen != null ==> seen.ids == Consumes(old(seen.ids), options, r)
  {
    hide Precheck, CheckEntry;
    var pre := Precheck(host, raw, options, if seen == null then None else Some(seen.ids));
    if pre.Err? {
      return Err(pre.error);
    }
    var c := pre.value;
    var entries := c.envelope.signatures;
    var validSigners, seenSigners: set<Text> := [], {};
    ghost var whole := CheckEntries(host, c, entries, {});
    assert entries[0..] == entries;
    PrependNone(whole);
    var i := 0;
    while i < |entries|
      invariant i <= |entries|
      invariant seen != null ==> seen.ids == old(seen.ids)
      invariant whole == Prepend(validSigners, CheckEntries(host, c, entries[i..], seenSigners))
    {
      var checked := CheckEntry(host, c, entries[i], seenSigners);
      assert entries[i..][1..] == entries[i + 1..];
      if checked.Err? {
        return Err(checked.error);
      }
      PrependMore(validSigners, checked.value, CheckEntries(host, c, entries[i + 1..], seenSigners + {checked.value}));
      seenSigners := seenSigners + {checked.value};
      validSigners := validSigners + [checked.value];
      i := i + 1;
    }
    assert entries[i..] == [] && validSigners + [] == validSigners;
    assert whole == Ok(validSigners);
    if |validSigners| < c.threshold {
      return Err(QuorumNotMet);
    }
    if seen != null && options.record {
      seen.ids := seen.ids + {c.envelope.evidenceId};
    }
    r := Ok(ReceiptOf(c, validSigners));
  }

  ghost function Prepend(front: seq<Text>, r: Result<seq<Text>>): Result<seq<Text>> {
    if r.Err? then r else Ok(front + r.value)
  }

  lemma PrependNone(r: Result<seq<Text>>)
    ensures Prepend([], r) == r
  {
    if r.Ok? {
      assert [] + r.value == r.value;
    }
  }

  lemma PrependMore(front: seq<Text>, x: Text, r: Result<seq<Text>>)
    ensures Prepend(front, Prepend([x], r)) == Prepend(front + [x], r)
  {
    if r.Ok? {
      assert front + ([x] + r.value) == front + [x] + r.value;
    }
  }
}
