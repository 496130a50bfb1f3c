/** What an accepted envelope carries, and what a run of verifications over one set of consumed
    ids keeps. */
module EvidenceSafety {
  import opened Bytes
  import opened JsonText
  import opened CanonicalJson
  import opened CanonicalJsonProofs
  import opened EvidenceText
  import opened Evidence
  import opened EvidenceBinding
  import opened EvidenceCompleteness

  // ---------------------------------------------------------------------
  // What an accepted envelope carries
  // ---------------------------------------------------------------------

  predicate Carries(entry: RawEntry, sig: PqSignature) {
    entry.RawEntry? && Signature(sig) in [entry.signature, entry.snake, entry.camel]
  }

  /** The entry carries a signature on the message that verifies under a key whose address is
      the signer. */
  ghost predicate Vouches(host: Host, message: Text, entry: RawEntry, signer: Text) {
    exists sig ::
      && Carries(entry, sig) && PublicKey(host, sig).Ok?
      && Address(host, PublicKey(host, sig).value) == signer && host.verify(message, sig, PublicKey(host, sig).value)
  }

  lemma EntrySound(host: Host, c: Checked, entry: RawEntry, seenSigners: set<Text>)
    requires CheckEntry(host, c, entry, seenSigners).Ok?
    ensures var signer := CheckEntry(host, c, entry, seenSigners).value;
            && signer !in seenSigners && Vouches(host, c.message, entry, signer)
            && (c.trusted.Some? ==> signer in c.trusted.value)
  {
    hide Address, NonEmpty, HexToBytes, Truthy;
    var (_, sig) := NormalizeEntry(host, entry).value;
    assert Carries(entry, sig);
  }

  lemma {:induction false} EntriesSound(host: Host, c: Checked, entries: seq<RawEntry>, seenSigners: set<Text>)
    requires CheckEntries(host, c, entries, seenSigners).Ok?
    ensures var signers := CheckEntries(host, c, entries, seenSigners).value;
            && |signers| == |entries| && AllDifferent(signers)
            && forall i :: 0 <= i < |signers| ==>
                 && signers[i] !in seenSigners && Vouches(host, c.message, entries[i], signers[i])
                 && (c.trusted.Some? ==> signers[i] in c.trusted.value)
    decreases |entries|
  {
    hide CheckEntry, Vouches;
    if entries != [] {
      EntrySound(host, c, entries[0], seenSigners);
      EntriesSound(host, c, entries[1..], seenSigners + {CheckEntry(host, c, entries[0], seenSigners).value});
    }
  }

  /** Everything an accepted envelope is known to satisfy. */
  ghost predicate Sound(host: Host, e: Envelope, options: Options, seen: Option<set<Text>>, r: Receipt) {
    && r.evidenceId == e.evidenceId && Ok(e.evidenceId) == HashCanonical(host, IdBody(e.fields))
    && r.kind == e.fields.kind && r.domain == e.fields.domain && r.payloadHash == e.fields.payloadHash
    && Ok(e.fields.payloadHash) == HashCanonical(host, e.payload)
    && Expects(host, e, options)
    && (seen.Some? ==> r.evidenceId !in seen.value)
    && |r.validSigners| >= r.requiredThreshold >= e.fields.requiredSignatures
    && (options.requiredThreshold.Some? ==>
          Positive(host, options.requiredThreshold).Ok?
            && r.requiredThreshold >= Positive(host, options.requiredThreshold).value)
    && |r.validSigners| == |e.signatures| && AllDifferent(r.validSigners)
    && (forall i :: 0 <= i < |r.validSigners| ==> Vouches(host, MessageOf(e), e.signatures[i], r.validSigners[i]))
    && (options.trustedSigners.Some? ==>
          && TrustedSet(host, options.trustedSigners.value).Ok?
          && forall i :: 0 <= i < |r.validSigners| ==>
               r.validSigners[i] in TrustedSet(host, options.trustedSigners.value).value)
  }

  lemma BodySound(host: Host, raw: RawEvidence)
    requires CheckBody(host, raw).Ok?
    ensures CheckShape(host, raw) == CheckBody(host, raw)
    ensures var e := CheckBody(host, raw).value;
            Ok(e.evidenceId) == HashCanonical(host, IdBody(e.fields))
              && Ok(e.fields.payloadHash) == HashCanonical(host, e.payload)
  {
    hide CheckShape, HashCanonical;
  }

  lemma ExpectationsSound(host: Host, e: Envelope, options: Options)
    requires CheckExpectations(host, e, options).Ok? && options.hasVerifier
    ensures Expects(host, e, options)
  {
    hide Kind, NormalizeDomain, Slot, Truthy, StableStringify, DomainJson;
    if options.expectedDomain.Some? {
      DomainTextBinds(e.fields.domain, NormalizeDomain(host, options.expectedDomain.value).value);
    }
  }

  lemma PrecheckSound(host: Host, raw: RawEvidence, options: Options, seen: Option<set<Text>>)
    requires Precheck(host, raw, options, seen).Ok?
    ensures var c := Precheck(host, raw, options, seen).value;
            && CheckBody(host, raw) == Ok(c.envelope) && CheckExpectations(host, c.envelope, options).Ok?
            && options.hasVerifier
            && (seen.Some? ==> c.envelope.evidenceId !in seen.value)
            && Threshold(host, c.envelope, options) == Ok(c.threshold)
            && Message(c.envelope.fields, c.envelope.evidenceId) == Ok(c.message)
            && (options.trustedSigners.Some? ==>
                  TrustedSet(host, options.trustedSigners.value).Ok?
                    && c.trusted == Some(TrustedSet(host, options.trustedSigners.value).value))
  {
    hide CheckBody, CheckExpectations, Threshold, Message, TrustedSet;
  }

  /** Every accepted envelope carries its quorum: at least the larger threshold of pairwise
      distinct signers, each with a valid signature on the envelope's own fields, each trusted
      if a trusted set is given; and it is unexpired, expected and not consumed. */
  lemma QuorumSafe(host: Host, raw: RawEvidence, options: Options, seen: Option<set<Text>>)
    requires Verified(host, raw, options, seen).Ok?
    ensures CheckShape(host, raw).Ok?
    ensures Sound(host, CheckShape(host, raw).value, options, seen, Verified(host, raw, options, seen).value)
  {
    hide CheckBody, Precheck, CheckEntries, CheckShape, Threshold, TrustedSet, Vouches, Expects, HashCanonical;
    hide IdBody, Positive, MessageOf, Message, CheckExpectations, AllDifferent;
    PrecheckSound(host, raw, options, seen);
    var c := Precheck(host, raw, options, seen).value;
    BodySound(host, raw);
    ExpectationsSound(host, c.envelope, options);
    ThresholdCovers(host, c.envelope, options);
    MessageDefined(c.envelope.fields, c.envelope.evidenceId);
    EntriesSound(host, c, c.envelope.signatures, {});
  }

  // ---------------------------------------------------------------------
  // Runs
  // ---------------------------------------------------------------------

  datatype Call = Call(raw: RawEvidence, options: Options)

  /** The ids consumed before call `i` of a run that starts with `ids`. */
  function IdsBefore(host: Host, calls: seq<Call>, ids: set<Text>, i: nat): set<Text>
    requires i <= |calls|
    decreases i, 0
  {
    if i == 0 then ids
    else Consumes(IdsBefore(host, calls, ids, i - 1), calls[i - 1].options, Outcome(host, calls, ids, i - 1))
  }

  function Outcome(host: Host, calls: seq<Call>, ids: set<Text>, i: nat): Result<Receipt>
    requires i < |calls|
    decreases i, 1
  {
    Verified(host, calls[i].raw, calls[i].options, Some(IdsBefore(host, calls, ids, i)))
  }

  lemma {:induction false} IdsGrow(host: Host, calls: seq<Call>, ids: set<Text>, i: nat, j: nat)
    requires i <= j <= |calls|
    ensures IdsBefore(host, calls, ids, i) <= IdsBefore(host, calls, ids, j)
    decreases j
  {
    hide Verified;
    if i < j {
      IdsGrow(host, calls, ids, i, j - 1);
    }
  }

  /** In any run over one set of consumed ids, an id that a recording call accepted is accepted
      by no later call, and no accepted id was consumed before the run. */
  lemma AcceptedOnce(host: Host, calls: seq<Call>, ids: set<Text>, i: nat, j: nat)
    requires i < j < |calls| && calls[i].options.record
    requires Outcome(host, calls, ids, i).Ok? && Outcome(host, calls, ids, j).Ok?
    ensures Outcome(host, calls, ids, i).value.evidenceId != Outcome(host, calls, ids, j).value.evidenceId
    ensures Outcome(host, calls, ids, j).value.evidenceId !in ids
  {
    hide Verified, Sound, CheckShape;
    IdsGrow(host, calls, ids, i + 1, j);
    IdsGrow(host, calls, ids, 0, j);
    NotSeen(host, calls[j].raw, calls[j].options, IdsBefore(host, calls, ids, j));
  }

  lemma NotSeen(host: Host, raw: RawEvidence, options: Options, ids: set<Text>)
    requires Verified(host, raw, options, Some(ids)).Ok?
    ensures Verified(host, raw, options, Some(ids)).value.evidenceId !in ids
  {
    hide Verified, CheckShape;
    QuorumSafe(host, raw, options, Some(ids));
  }

  /** The ids consumed by a run are those it started with and those its recording calls
      accepted; a call that rejects consumes nothing. */
  lemma {:induction false} IdsAre(host: Host, calls: seq<Call>, ids: set<Text>, n: nat, id: Text)
    requires n <= |calls|
    ensures id in IdsBefore(host, calls, ids, n) <==>
            id in ids || exists i :: 0 <= i < n && Outcome(host, calls, ids, i).Ok? && calls[i].options.record
                                    && Outcome(host, calls, ids, i).value.evidenceId == id
    decreases n
  {
    hide Verified;
    if n > 0 {
      IdsAre(host, calls, ids, n - 1, id);
    }
  }

  // ---------------------------------------------------------------------
  // One id, one piece of evidence
  // ---------------------------------------------------------------------

  /** The two values print differently, and still their texts have the same hash. */
  predicate Collide(host: Host, j: Json, k: Json) {
    && StableStringify(j).Some? && StableStringify(k).Some?
    && StableStringify(j).value != StableStringify(k).value
    && host.hash(StableStringify(j).value) == host.hash(StableStringify(k).value)
  }

  /** Two accepted envelopes with the same id agree in every field, unless the very texts their
      ids are hashes of collide; and if they agree, their payloads are the same tree, unless the
      two payload texts collide. */
  lemma SameIdSameEvidence(host: Host, a: RawEvidence, b: RawEvidence, o: Options, p: Options,
                           s: Option<set<Text>>, t: Option<set<Text>>)
    requires Verified(host, a, o, s).Ok? && Verified(host, b, p, t).Ok?
    requires a.RawEvidence? && b.RawEvidence? && WellFormed(a.payload) && WellFormed(b.payload)
    requires Verified(host, a, o, s).value.evidenceId == Verified(host, b, p, t).value.evidenceId
    ensures CheckShape(host, a).Ok? && CheckShape(host, b).Ok?
    ensures var e, f := CheckShape(host, a).value.fields, CheckShape(host, b).value.fields;
            || Collide(host, IdBody(e), IdBody(f))
            || (e == f && (Collide(host, a.payload, b.payload) || Same(a.payload, b.payload)))
  {
    hide Verified, CheckShape, WellFormed, Same, IdBody, StableStringify, Vouches, AllDifferent, Expects;
    QuorumSafe(host, a, o, s);
    QuorumSafe(host, b, p, t);
    var e, f := CheckShape(host, a).value, CheckShape(host, b).value;
    IdTextBinds(e.fields, f.fields);
    HashEqual(host, IdBody(e.fields), IdBody(f.fields));
    if e.fields == f.fields {
      HashEqual(host, e.payload, f.payload);
      PayloadText(host, a);
      PayloadText(host, b);
      StringifyIff(a.payload, b.payload);
    }
  }

  lemma HashEqual(host: Host, j: Json, k: Json)
    requires HashCanonical(host, j).Ok? && HashCanonical(host, j) == HashCanonical(host, k)
    ensures StableStringify(j).Some? && StableStringify(k).Some?
    ensures Collide(host, j, k) || StableStringify(j) == StableStringify(k)
  {
    hide StableStringify;
  }

  /** The payload that was hashed prints like the payload that came in. */
  lemma PayloadText(host: Host, raw: RawEvidence)
    requires raw.RawEvidence? && WellFormed(raw.payload) && CheckShape(host, raw).Ok?
    requires StableStringify(CheckShape(host, raw).value.payload).Some?
    ensures StableStringify(raw.payload) == StableStringify(CheckShape(host, raw).value.payload)
  {
    hide RawFields, ManifestHash, Canonicalize, Print, WellFormed, Tame;
    CanonicalizeIdempotentIff(raw.payload);
  }
}
