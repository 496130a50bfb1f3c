/**
  Exactly which raw envelopes and drafts pass, field by field: what is read from which name, how
  it is normalized, and what is refused.
*/
module EvidenceShapes {
  import opened Bytes
  import opened JsonText
  import opened CanonicalJson
  import opened EvidenceText
  import opened Evidence

  // ---------------------------------------------------------------------
  // Fields
  // ---------------------------------------------------------------------

  /** The field is there, and its text without the white space around it is `t`, not empty. */
  predicate ReadsAs(host: Host, v: Option<Json>, t: Text) {
    && v.Some? && !v.value.Null? && t != []
    && t == Trim(if v.value.Str? then v.value.s else host.text(v.value))
  }

  /** The same in lower case. */
  ghost predicate ReadsLower(host: Host, v: Option<Json>, t: Text) {
    exists u :: ReadsAs(host, v, u) && t == host.lower(u)
  }

  lemma LowerIff(host: Host, v: Option<Json>, t: Text)
    ensures NonEmpty(host, v) == Ok(t) <==> ReadsAs(host, v, t)
    ensures Lower(host, v) == Ok(t) <==> ReadsLower(host, v, t)
  {
    hide Trim;
    if NonEmpty(host, v).Ok? {
      assert ReadsAs(host, v, NonEmpty(host, v).value);
    }
  }

  /** The field is a safe integer, or a text that is a number, of at least `least`. */
  predicate CountsAs(host: Host, v: Option<Json>, least: nat, n: nat) {
    && least <= n <= 9007199254740991
    && v.Some?
    && (if v.value.Str? && Trim(v.value.s) != [] then host.number(v.value.s) == Num(n) else v.value == Num(n))
  }

  lemma IntegerIff(host: Host, v: Option<Json>, least: nat, n: nat)
    ensures Integer(host, v, least) == Ok(n) <==> CountsAs(host, v, least, n)
  {
    hide Trim;
  }

  /** Sixty-four hexadecimal digits, with or without "0x", in either case. */
  ghost predicate HashesAs(host: Host, v: Option<Json>, h: Text) {
    && |h| == 64 && (forall i :: 0 <= i < 64 ==> IsLowerHex(h[i]))
    && exists u :: ReadsAs(host, v, u) && h == host.lower(WithoutPrefix(u))
  }

  lemma HashIff(host: Host, v: Option<Json>, h: Text)
    ensures ManifestHash(host, v) == Ok(h) <==> HashesAs(host, v, h)
  {
    hide ReadsAs, WithoutPrefix;
    forall t ensures NonEmpty(host, v) == Ok(t) <==> ReadsAs(host, v, t) {
      LowerIff(host, v, t);
    }
    hide NonEmpty;
  }

  lemma KindIff(host: Host, v: Option<Json>, kind: Text)
    ensures Kind(host, v) == Ok(kind) <==> ReadsLower(host, v, kind) && kind in Kinds()
  {
    hide Kinds, ReadsLower, Lower;
    LowerIff(host, v, kind);
    if Lower(host, v).Ok? {
      LowerIff(host, v, Lower(host, v).value);
    }
  }

  // ---------------------------------------------------------------------
  // Domains
  // ---------------------------------------------------------------------

  /** Of two names for a field the first counts if it is there. */
  function Either(first: Option<Json>, second: Option<Json>): Option<Json> {
    if first.Some? then first else second
  }

  /** `normalizeEvidenceDomain`: the snake-case names come first, and the purpose has a default. */
  ghost predicate DomainReads(host: Host, raw: RawDomain, d: Domain) {
    && raw.RawDomain?
    && ReadsLower(host, Either(raw.lichenNetwork.snake, raw.lichenNetwork.camel), d.lichenNetwork)
    && ReadsLower(host, Either(raw.neoNetwork.snake, raw.neoNetwork.camel), d.neoNetwork)
    && ReadsAs(host, Either(raw.neoChainId.snake, raw.neoChainId.camel), d.neoChainId)
    && (forall i :: 0 <= i < |d.neoChainId| ==> IsDigit(d.neoChainId[i]))
    && ReadsLower(host, raw.route, d.route) && ReadsLower(host, raw.asset, d.asset)
    && ReadsLower(host, Either(raw.purpose, Some(Str(Ascii("neo-x-pq-watchtower")))), d.purpose)
  }

  lemma ChainIdIff(host: Host, v: Option<Json>, t: Text)
    ensures ChainId(host, v) == Ok(t) <==> ReadsAs(host, v, t) && forall i :: 0 <= i < |t| ==> IsDigit(t[i])
  {
    LowerIff(host, v, t);
  }

  lemma DomainIff(host: Host, raw: RawDomain, d: Domain)
    ensures NormalizeDomain(host, raw) == Ok(d) <==> DomainReads(host, raw, d)
  {
    hide Lower, ChainId, ReadsLower, ReadsAs, Ascii;
    if raw.RawDomain? {
      LowerIff(host, SnakeFirst(raw.lichenNetwork), d.lichenNetwork);
      LowerIff(host, SnakeFirst(raw.neoNetwork), d.neoNetwork);
      ChainIdIff(host, SnakeFirst(raw.neoChainId), d.neoChainId);
      LowerIff(host, raw.route, d.route);
      LowerIff(host, raw.asset, d.asset);
      LowerIff(host, Either(raw.purpose, Some(Str(Ascii("neo-x-pq-watchtower")))), d.purpose);
    }
  }

  // ---------------------------------------------------------------------
  // Envelopes
  // ---------------------------------------------------------------------

  ghost predicate FieldsRead(host: Host, raw: RawEvidence, f: Fields) {
    && raw.RawEvidence?
    && CountsAs(host, raw.schemaVersion, 1, f.schemaVersion)
    && ReadsLower(host, raw.kind, f.kind) && f.kind in Kinds()
    && DomainReads(host, raw.domain, f.domain)
    && CountsAs(host, raw.slot, 0, f.slot) && CountsAs(host, raw.issuedAtMs, 0, f.issuedAtMs)
    && CountsAs(host, raw.expiresAtSlot, 0, f.expiresAtSlot)
    && HashesAs(host, raw.manifestHash, f.manifestHash) && HashesAs(host, raw.payloadHash, f.payloadHash)
    && CountsAs(host, raw.requiredSignatures, 1, f.requiredSignatures)
  }

  lemma FieldsIff(host: Host, raw: RawEvidence, f: Fields)
    requires raw.RawEvidence?
    ensures RawFields(host, raw) == Ok(f) <==> FieldsRead(host, raw, f)
  {
    hide Integer, Kind, NormalizeDomain, ManifestHash, CountsAs, ReadsLower, HashesAs, DomainReads, Kinds;
    IntegerIff(host, raw.schemaVersion, 1, f.schemaVersion);
    KindIff(host, raw.kind, f.kind);
    DomainIff(host, raw.domain, f.domain);
    IntegerIff(host, raw.slot, 0, f.slot);
    IntegerIff(host, raw.issuedAtMs, 0, f.issuedAtMs);
    IntegerIff(host, raw.expiresAtSlot, 0, f.expiresAtSlot);
    HashIff(host, raw.manifestHash, f.manifestHash);
    HashIff(host, raw.payloadHash, f.payloadHash);
    IntegerIff(host, raw.requiredSignatures, 1, f.requiredSignatures);
  }

  /** `verifyUnsignedShape` passes an envelope, as `e`, if and only if each field reads as it has in
      `e`, the version is 1, it expires after its slot, and the payload is canonical. */
  lemma ShapeIff(host: Host, raw: RawEvidence, e: Envelope)
    ensures CheckShape(host, raw) == Ok(e) <==>
            && FieldsRead(host, raw, e.fields) && e.fields.schemaVersion == 1
            && e.fields.slot < e.fields.expiresAtSlot
            && Canonicalize(raw.payload) == Some(e.payload) && HashesAs(host, raw.evidenceId, e.evidenceId)
            && e.signatures == if raw.signatures.Some? then raw.signatures.value else []
  {
    hide RawFields, FieldsRead, ManifestHash, HashesAs, Canonicalize;
    if raw.RawEvidence? {
      FieldsIff(host, raw, e.fields);
      HashIff(host, raw.evidenceId, e.evidenceId);
    } else {
      NoFields(host, raw, e.fields);
    }
  }

  lemma NoFields(host: Host, raw: RawEvidence, f: Fields)
    requires raw.NoEvidence?
    ensures !FieldsRead(host, raw, f)
  {}

  // ---------------------------------------------------------------------
  // Drafts
  // ---------------------------------------------------------------------

  ghost predicate DraftReads(host: Host, d: Draft, f: Fields) {
    && f.schemaVersion == 1 && ReadsLower(host, d.kind, f.kind) && f.kind in Kinds()
    && DomainReads(host, d.domain, f.domain)
    && CountsAs(host, d.slot, 0, f.slot)
    && CountsAs(host, Either(d.issuedAtMs.camel, d.issuedAtMs.snake), 0, f.issuedAtMs)
    && CountsAs(host, Either(d.expiresAtSlot.camel, d.expiresAtSlot.snake), 0, f.expiresAtSlot)
    && HashesAs(host, Either(d.manifestHash.camel, d.manifestHash.snake), f.manifestHash)
    && CountsAs(host, Either(d.requiredSignatures.camel, d.requiredSignatures.snake), 1, f.requiredSignatures)
    && StableStringify(d.payload).Some? && f.payloadHash == host.hash(StableStringify(d.payload).value)
  }

  lemma DraftIff(host: Host, d: Draft, f: Fields)
    ensures DraftFields(host, d) == Ok(f) <==> DraftReads(host, d, f)
  {
    hide Integer, Kind, NormalizeDomain, ManifestHash, CountsAs, ReadsLower, HashesAs, DomainReads, Kinds;
    hide StableStringify;
    KindIff(host, d.kind, f.kind);
    DomainIff(host, d.domain, f.domain);
    IntegerIff(host, d.slot, 0, f.slot);
    IntegerIff(host, CamelFirst(d.issuedAtMs), 0, f.issuedAtMs);
    IntegerIff(host, CamelFirst(d.expiresAtSlot), 0, f.expiresAtSlot);
    HashIff(host, CamelFirst(d.manifestHash), f.manifestHash);
    IntegerIff(host, CamelFirst(d.requiredSignatures), 1, f.requiredSignatures);
  }

  /** `createUnsignedEvidence` makes `e` if and only if the draft reads as its fields, here with the
      camel-case names first, it expires after its slot, and the id is the hash of its fields. */
  lemma CreateIff(host: Host, d: Draft, e: Envelope)
    ensures Create(host, d) == Ok(e) <==>
            && DraftReads(host, d, e.fields) && e.fields.slot < e.fields.expiresAtSlot
            && Canonicalize(d.payload) == Some(e.payload) && e.signatures == []
            && HashCanonical(host, IdBody(e.fields)) == Ok(e.evidenceId)
  {
    hide DraftFields, DraftReads, Canonicalize, HashCanonical, IdBody;
    DraftIff(host, d, e.fields);
    if DraftFields(host, d).Ok? {
      DraftIff(host, d, DraftFields(host, d).value);
    }
  }
}
