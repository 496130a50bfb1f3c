/** An evidence id and a signed message each determine every field of the envelope. */
module EvidenceBinding {
  import opened Bytes
  import opened JsonText
  import opened CanonicalJson
  import opened CanonicalJsonProofs
  import opened EvidenceText
  import opened Evidence

  /** The text the signers sign. */
  function MessageOf(e: Envelope): Text {
    MessagePrefix() + Shown(SigningBody(e.fields, e.evidenceId))
  }

  function Shown(j: Json): Text {
    if StableStringify(j).Some? then StableStringify(j).value else []
  }

  predicate SameKeys(es: seq<Entry>, fs: seq<Entry>) {
    |es| == |fs| && forall i :: 0 <= i < |es| ==> es[i].key == fs[i].key && es[i].key != PROTO
  }

  /** Objects with the same keys are the same tree when their values are, one by one. */
  lemma SameByKey(es: seq<Entry>, fs: seq<Entry>)
    requires SameKeys(es, fs) && CanonicalJson.Distinct(es)
    ensures Same(Obj(es, true), Obj(fs, true)) <==> forall i :: 0 <= i < |es| ==> Same(es[i].value, fs[i].value)
  {
    hide Has;
    if Same(Obj(es, true), Obj(fs, true)) {
      forall i | 0 <= i < |es| ensures Same(es[i].value, fs[i].value) {
        var j := MatchIndex(es[i], fs);
        assert j == i;
      }
    }
    if forall i :: 0 <= i < |es| ==> Same(es[i].value, fs[i].value) {
      forall i | 0 <= i < |es| ensures Matches(es[i], fs) {
        MatchesBy(es[i], fs, i);
      }
      forall j | 0 <= j < |fs| ensures Has(es, fs[j].key) {
        HasAt(es, j);
      }
    }
  }

  lemma DomainKeys(d: Domain)
    ensures var es := DomainJson(d).entries; CanonicalJson.Distinct(es) && SameKeys(es, es)
    ensures Clean(DomainJson(d)) && WellFormed(DomainJson(d))
  {
    assert Ascii("route")[0] == 114 && Ascii("asset")[0] == 97;
  }

  lemma IdKeys(f: Fields)
    ensures CanonicalJson.Distinct(IdEntries(f)) && SameKeys(IdEntries(f), IdEntries(f))
  {
    hide DomainJson;
    assert Ascii("slot")[0] == 115 && Ascii("kind")[0] == 107;
    assert Ascii("issued_at_ms")[0] == 105 && Ascii("payload_hash")[0] == 112;
  }

  lemma IdBodyClean(f: Fields)
    ensures Clean(IdBody(f)) && WellFormed(IdBody(f))
  {
    hide DomainJson;
    DomainKeys(f.domain);
    IdKeys(f);
  }

  lemma SameText(a: Text, b: Text)
    ensures Same(Str(a), Str(b)) <==> a == b
  {}

  lemma SameNumber(a: int, b: int)
    ensures Same(Num(a), Num(b)) <==> a == b
  {}

  lemma DomainSame(c: Domain, d: Domain)
    ensures Same(DomainJson(c), DomainJson(d)) <==> c == d
  {
    hide Same, Ascii, CanonicalJson.Distinct;
    DomainKeys(c);
    DomainKeys(d);
    var es, fs := DomainJson(c).entries, DomainJson(d).entries;
    SameByKey(es, fs);
    SameText(c.lichenNetwork, d.lichenNetwork);
    SameText(c.neoNetwork, d.neoNetwork);
    SameText(c.neoChainId, d.neoChainId);
    SameText(c.route, d.route);
    SameText(c.asset, d.asset);
    SameText(c.purpose, d.purpose);
    assert (Same(es[0].value, fs[0].value) && Same(es[1].value, fs[1].value) && Same(es[2].value, fs[2].value)
        && Same(es[3].value, fs[3].value) && Same(es[4].value, fs[4].value) && Same(es[5].value, fs[5].value))
        <==> c == d;
  }

  lemma IdSame(f: Fields, g: Fields)
    ensures (forall i :: 0 <= i < 9 ==> Same(IdEntries(f)[i].value, IdEntries(g)[i].value)) <==> f == g
  {
    hide Same, Ascii, DomainJson;
    DomainSame(f.domain, g.domain);
    SameNumber(f.schemaVersion, g.schemaVersion);
    SameText(f.kind, g.kind);
    SameNumber(f.slot, g.slot);
    SameNumber(f.issuedAtMs, g.issuedAtMs);
    SameNumber(f.expiresAtSlot, g.expiresAtSlot);
    SameText(f.manifestHash, g.manifestHash);
    SameText(f.payloadHash, g.payloadHash);
    SameNumber(f.requiredSignatures, g.requiredSignatures);
    var es, fs := IdEntries(f), IdEntries(g);
    assert (Same(es[0].value, fs[0].value) && Same(es[1].value, fs[1].value) && Same(es[2].value, fs[2].value)
        && Same(es[3].value, fs[3].value) && Same(es[4].value, fs[4].value) && Same(es[5].value, fs[5].value)
        && Same(es[6].value, fs[6].value) && Same(es[7].value, fs[7].value) && Same(es[8].value, fs[8].value))
        <==> f == g;
  }

  /** Two domains have the same text exactly when they are equal. */
  lemma DomainTextBinds(c: Domain, d: Domain)
    ensures StableStringify(DomainJson(c)).Some?
    ensures StableStringify(DomainJson(c)) == StableStringify(DomainJson(d)) <==> c == d
  {
    hide DomainJson, Canonicalize, Print, Clean, WellFormed, Same;
    DomainKeys(c);
    DomainKeys(d);
    CanonicalizeSucceedsIff(DomainJson(c));
    CanonicalizeSucceedsIff(DomainJson(d));
    StringifyIff(DomainJson(c), DomainJson(d));
    DomainSame(c, d);
  }

  /** The text an evidence id is the hash of determines every field. */
  lemma IdTextBinds(f: Fields, g: Fields)
    ensures StableStringify(IdBody(f)).Some?
    ensures StableStringify(IdBody(f)) == StableStringify(IdBody(g)) <==> f == g
  {
    hide IdEntries, Canonicalize, Print, Clean, WellFormed, Same;
    IdBodyClean(f);
    IdBodyClean(g);
    CanonicalizeSucceedsIff(IdBody(f));
    CanonicalizeSucceedsIff(IdBody(g));
    StringifyIff(IdBody(f), IdBody(g));
    IdKeys(f);
    IdKeys(g);
    KeysAgree(f, g);
    SameByKey(IdEntries(f), IdEntries(g));
    IdSame(f, g);
  }

  lemma KeysAgree(f: Fields, g: Fields)
    ensures |IdEntries(f)| == |IdEntries(g)| == 9
    ensures SameKeys(IdEntries(f), IdEntries(g))
  {
    hide DomainJson;
    IdKeys(f);
  }

  lemma SigningKeys(f: Fields, id: Text)
    ensures SigningBody(f, id).Obj?
    ensures var es := SigningBody(f, id).entries; CanonicalJson.Distinct(es) && SameKeys(es, es)
    ensures Clean(SigningBody(f, id)) && WellFormed(SigningBody(f, id))
  {
    hide DomainJson;
    IdKeys(f);
    IdBodyClean(f);
    EvidenceIdKey(f);
  }

  lemma EvidenceIdKey(f: Fields)
    ensures forall i :: 0 <= i < 9 ==> IdEntries(f)[i].key != Ascii("evidence_id")
    ensures Ascii("evidence_id") != PROTO
  {
    hide DomainJson;
    assert |Ascii("evidence_id")| == 11 && |PROTO| == 9;
    forall i | 0 <= i < 9 ensures |IdEntries(f)[i].key| != 11 {
    }
  }

  lemma MessageDefined(f: Fields, id: Text)
    ensures StableStringify(SigningBody(f, id)).Some?
    ensures forall e: Envelope :: e.fields == f && e.evidenceId == id ==> Message(f, id) == Ok(MessageOf(e))
  {
    hide SigningBody, Canonicalize, Print, Clean, WellFormed;
    SigningKeys(f, id);
    CanonicalizeSucceedsIff(SigningBody(f, id));
  }

  /** What signers sign determines every field and the id. */
  lemma MessageBinds(f: Fields, x: Text, g: Fields, y: Text)
    ensures Message(f, x).Ok?
    ensures Message(f, x) == Message(g, y) <==> f == g && x == y
  {
    hide SigningBody, Canonicalize, Print, Clean, WellFormed, Same, IdEntries;
    MessageDefined(f, x);
    MessageDefined(g, y);
    SigningKeys(f, x);
    SigningKeys(g, y);
    var a, b := SigningBody(f, x), SigningBody(g, y);
    StringifyIff(a, b);
    SigningSame(f, x, g, y);
    DropPrefix(MessagePrefix(), StableStringify(a).value, StableStringify(b).value);
  }

  lemma DropPrefix(p: Text, a: Text, b: Text)
    ensures p + a == p + b <==> a == b
  {
    if p + a == p + b {
      assert (p + a)[|p|..] == a && (p + b)[|p|..] == b;
    }
  }

  lemma SigningSame(f: Fields, x: Text, g: Fields, y: Text)
    ensures Same(SigningBody(f, x), SigningBody(g, y)) <==> f == g && x == y
  {
    hide IdEntries;
    SigningKeys(f, x);
    SigningKeys(g, y);
    KeysAgree(f, g);
    IdSame(f, g);
    var es, fs := SigningBody(f, x).entries, SigningBody(g, y).entries;
    assert forall i :: 0 <= i < 9 ==> es[i] == IdEntries(f)[i] && fs[i] == IdEntries(g)[i];
    SameByKey(es, fs);
    assert Same(es[9].value, fs[9].value) <==> x == y;
  }
}
