/**
  The very texts that are hashed into an evidence id and signed: which names they hold, in which
  order, and with which values.
*/
module EvidenceMessages {
  import opened Bytes
  import opened JsonText
  import opened CanonicalJson
  import opened CanonicalJsonProofs
  import opened CanonicalOrder
  import opened EvidenceText
  import opened Evidence
  import opened EvidenceBinding

  // ---------------------------------------------------------------------
  // Sorting a list of named values
  // ---------------------------------------------------------------------

  /** Two names, the first smaller where they first differ. */
  predicate Earlier(a: string, b: string, place: nat) {
    && IsName(a) && IsName(b) && place <= |a| && place < |b| && a[..place] == b[..place]
    && (place == |a| || a[place] < b[place])
  }

  /** Plain ASCII that starts with a lower-case letter, so no array index and not "__proto__". */
  predicate IsName(s: string) {
    s != "" && 'a' <= s[0] <= 'z' && forall i :: 0 <= i < |s| ==> s[i] < 128 as char
  }

  lemma NamesBefore(a: string, b: string, place: nat)
    requires Earlier(a, b, place)
    ensures Before(Ascii(a), Ascii(b))
  {
    var s, t := Ascii(a), Ascii(b);
    forall i | 0 <= i < place ensures s[i] == t[i] {
      assert a[i] == a[..place][i] == b[..place][i] == b[i];
    }
    assert s[..place] == t[..place];
    assert FirstSmaller(s, t, place);
    LexMeans(s, t);
    assert !IsIndex(s) && !IsIndex(t);
  }

  lemma LettersBefore(a: string, b: string)
    requires IsName(a) && IsName(b) && a[0] < b[0]
    ensures Before(Ascii(a), Ascii(b))
  {
    NamesBefore(a, b, 0);
  }

  predicate Step(es: seq<Entry>, i: nat) { i + 1 < |es| && Before(es[i].key, es[i + 1].key) }

  lemma {:induction false} StepsSorted(es: seq<Entry>, i: nat, k: nat)
    requires (forall n: nat :: n + 1 < |es| ==> Step(es, n)) && i < k < |es|
    ensures Before(es[i].key, es[k].key)
    decreases k
  {
    hide Before;
    assert Step(es, k - 1);
    if i < k - 1 {
      StepsSorted(es, i, k - 1);
      BeforeTransitive(es[i].key, es[k - 1].key, es[k].key);
    }
  }

  /** Two lists of the same named values, one of them in order: sorting the other gives that one. */
  lemma SortsTo(es: seq<Entry>, sorted: seq<Entry>)
    requires Distinct(es) && forall i :: 0 <= i < |es| ==> es[i].key != PROTO
    requires forall n: nat :: n + 1 < |sorted| ==> Step(sorted, n)
    requires forall f :: f in es <==> f in sorted
    ensures Sort(WithoutProto(es)) == sorted
  {
    hide Before, Step, Has;
    var out := Sort(WithoutProto(es));
    CanonicalEntries(es);
    assert Sorted(sorted) by {
      forall i, k | 0 <= i < k < |sorted| ensures Before(sorted[i].key, sorted[k].key) {
        StepsSorted(sorted, i, k);
      }
    }
    forall f ensures f in out <==> f in sorted {
      if f in es {
        var i :| 0 <= i < |es| && es[i] == f;
      }
    }
    SameSorted(out, sorted);
  }

  /** Entries whose values are canonicalized one by one, then sorted. */
  lemma CanonicalObject(es: seq<Entry>, cs: seq<Entry>, sorted: seq<Entry>)
    requires |es| == |cs|
    requires forall i :: 0 <= i < |es| ==>
               cs[i].key == es[i].key && cs[i].key != PROTO && Canonicalize(es[i].value) == Some(cs[i].value)
    requires Distinct(cs) && (forall n: nat :: n + 1 < |sorted| ==> Step(sorted, n))
    requires forall f :: f in cs <==> f in sorted
    ensures Canonicalize(Obj(es, true)) == Some(Obj(sorted, true))
  {
    hide Step, Sort, WithoutProto;
    var all := CanonicalizeEntries(es);
    assert all.Some?;
    forall i | 0 <= i < |es| ensures all.value[i] == cs[i] {
    }
    assert all.value == cs && !SetsPrototype(cs);
    SortsTo(cs, sorted);
  }

  lemma SameSorted(es: seq<Entry>, fs: seq<Entry>)
    requires Sorted(es) && Sorted(fs) && forall f :: f in es <==> f in fs
    ensures es == fs
  {
    hide Before;
    HasAll(es, fs);
    HasAll(fs, es);
    SortedKeysUnique(es, fs, |es|);
    SortedKeysUnique(fs, es, |fs|);
    forall i | 0 <= i < |es| ensures es[i] == fs[i] {
      assert es[i] in fs;
      var k :| 0 <= k < |fs| && fs[k] == es[i];
      if k < i {
        Apart(fs, k, i);
      } else if i < k {
        Apart(fs, i, k);
      }
    }
  }

  lemma HasAll(es: seq<Entry>, fs: seq<Entry>)
    requires forall f :: f in es ==> f in fs
    ensures forall i :: 0 <= i < |es| ==> Has(fs, es[i].key)
  {
    forall i | 0 <= i < |es| ensures Has(fs, es[i].key) {
      assert es[i] in fs;
      var k :| 0 <= k < |fs| && fs[k] == es[i];
    }
  }

  // ---------------------------------------------------------------------
  // The texts
  // ---------------------------------------------------------------------

  function Field(name: string, value: Json): Entry { Entry(Ascii(name), value) }

  function DomainFields(d: Domain): seq<Entry> {
    [Field("asset", Str(d.asset)),
     Field("lichen_network", Str(d.lichenNetwork)),
     Field("neo_chain_id", Str(d.neoChainId)),
     Field("neo_network", Str(d.neoNetwork)),
     Field("purpose", Str(d.purpose)),
     Field("route", Str(d.route))]
  }

  function LaterFields(f: Fields): seq<Entry> {
    [Field("expires_at_slot", Num(f.expiresAtSlot)),
     Field("issued_at_ms", Num(f.issuedAtMs)),
     Field("kind", Str(f.kind)),
     Field("manifest_hash", Str(f.manifestHash)),
     Field("payload_hash", Str(f.payloadHash)),
     Field("required_signatures", Num(f.requiredSignatures)),
     Field("schema_version", Num(f.schemaVersion)),
     Field("slot", Num(f.slot))]
  }

  lemma DomainSteps(d: Domain)
    ensures forall n: nat :: n + 1 < 6 ==> Step(DomainFields(d), n)
  {
    hide Before, Ascii;
    LettersBefore("asset", "lichen_network");
    LettersBefore("lichen_network", "neo_chain_id");
    assert "neo_chain_id"[..4] == "neo_" == "neo_network"[..4];
    NamesBefore("neo_chain_id", "neo_network", 4);
    LettersBefore("neo_network", "purpose");
    LettersBefore("purpose", "route");
    var es := DomainFields(d);
    assert Step(es, 0) && Step(es, 1) && Step(es, 2) && Step(es, 3) && Step(es, 4);
  }

  lemma DomainMembers(d: Domain, f: Entry)
    ensures f in DomainJson(d).entries <==> f in DomainFields(d)
  {
    hide Ascii;
  }

  /** The canonical form of a domain. */
  lemma DomainText(d: Domain)
    ensures Canonicalize(DomainJson(d)) == Some(Obj(DomainFields(d), true))
  {
    DomainKeys(d);
    DomainSteps(d);
    hide Ascii, Step, Distinct;
    var es := DomainJson(d).entries;
    forall f ensures f in es <==> f in DomainFields(d) {
      DomainMembers(d, f);
    }
    CanonicalObject(es, es, DomainFields(d));
  }

  lemma FirstNames()
    ensures Before(Ascii("expires_at_slot"), Ascii("issued_at_ms")) && Before(Ascii("issued_at_ms"), Ascii("kind"))
    ensures Before(Ascii("kind"), Ascii("manifest_hash")) && Before(Ascii("manifest_hash"), Ascii("payload_hash"))
  {
    hide Before, Ascii;
    LettersBefore("expires_at_slot", "issued_at_ms");
    LettersBefore("issued_at_ms", "kind");
    LettersBefore("kind", "manifest_hash");
    LettersBefore("manifest_hash", "payload_hash");
  }

  lemma LastNames()
    ensures Before(Ascii("payload_hash"), Ascii("required_signatures"))
    ensures Before(Ascii("required_signatures"), Ascii("schema_version"))
    ensures Before(Ascii("schema_version"), Ascii("slot"))
  {
    hide Before, Ascii;
    LettersBefore("payload_hash", "required_signatures");
    LettersBefore("required_signatures", "schema_version");
    assert "schema_version"[..1] == "s" == "slot"[..1];
    NamesBefore("schema_version", "slot", 1);
  }

  lemma LaterSteps(f: Fields)
    ensures forall n: nat :: n + 1 < 8 ==> Step(LaterFields(f), n)
  {
    hide Before, Ascii;
    FirstNames();
    LastNames();
    var es := LaterFields(f);
    assert Step(es, 0) && Step(es, 1) && Step(es, 2) && Step(es, 3) && Step(es, 4) && Step(es, 5) && Step(es, 6);
  }

  lemma StepCons(e: Entry, es: seq<Entry>)
    requires (forall n: nat :: n + 1 < |es| ==> Step(es, n)) && es != [] && Before(e.key, es[0].key)
    ensures forall n: nat :: n + 1 < |es| + 1 ==> Step([e] + es, n)
  {
    hide Before;
    var all := [e] + es;
    forall n: nat | n + 1 < |all| ensures Step(all, n) {
      if n > 0 {
        assert Step(es, n - 1);
        assert all[n] == es[n - 1] && all[n + 1] == es[n];
      }
    }
  }

  /** What an evidence id is the hash of, by name. */
  function IdFields(f: Fields): seq<Entry> {
    [Field("domain", Obj(DomainFields(f.domain), true))] + LaterFields(f)
  }

  /** What the signers sign, by name. */
  function SignedFields(f: Fields, evidenceId: Text): seq<Entry> {
    [Field("domain", Obj(DomainFields(f.domain), true))] + ([Field("evidence_id", Str(evidenceId))] + LaterFields(f))
  }

  lemma IdSteps(f: Fields, evidenceId: Text)
    ensures forall n: nat :: n + 1 < |IdFields(f)| ==> Step(IdFields(f), n)
    ensures forall n: nat :: n + 1 < |SignedFields(f, evidenceId)| ==> Step(SignedFields(f, evidenceId), n)
  {
    hide Before, Ascii, DomainFields, Step;
    LaterSteps(f);
    LettersBefore("domain", "expires_at_slot");
    LettersBefore("domain", "evidence_id");
    assert "evidence_id"[..1] == "e" == "expires_at_slot"[..1];
    NamesBefore("evidence_id", "expires_at_slot", 1);
    StepCons(Field("domain", Obj(DomainFields(f.domain), true)), LaterFields(f));
    var signed := [Field("evidence_id", Str(evidenceId))] + LaterFields(f);
    StepCons(Field("evidence_id", Str(evidenceId)), LaterFields(f));
    StepCons(Field("domain", Obj(DomainFields(f.domain), true)), signed);
  }

  /** The id entries with the domain canonicalized. */
  function IdValues(f: Fields): seq<Entry> {
    IdEntries(f)[2 := Field("domain", Obj(DomainFields(f.domain), true))]
  }

  lemma IdMembers(f: Fields, e: Entry)
    ensures e in IdValues(f) <==> e in IdFields(f)
  {
    hide Ascii, DomainFields, DomainJson;
    var d := Field("domain", Obj(DomainFields(f.domain), true));
    assert IdValues(f)[0] == Field("schema_version", Num(f.schemaVersion));
    assert IdValues(f) == [Field("schema_version", Num(f.schemaVersion)), Field("kind", Str(f.kind)), d,
                           Field("slot", Num(f.slot)), Field("issued_at_ms", Num(f.issuedAtMs)),
                           Field("expires_at_slot", Num(f.expiresAtSlot)),
                           Field("manifest_hash", Str(f.manifestHash)), Field("payload_hash", Str(f.payloadHash)),
                           Field("required_signatures", Num(f.requiredSignatures))];
  }

  lemma SignedMembers(f: Fields, evidenceId: Text, e: Entry)
    ensures e in IdValues(f) + [Field("evidence_id", Str(evidenceId))] <==> e in SignedFields(f, evidenceId)
  {
    hide Ascii, DomainFields, IdValues, LaterFields;
    IdMembers(f, e);
  }

  /** An evidence id is the hash of this text. */
  lemma IdText(f: Fields)
    ensures StableStringify(IdBody(f)) == Some(Print(Obj(IdFields(f), true)))
  {
    IdKeys(f);
    IdSteps(f, []);
    DomainText(f.domain);
    IdValuesOf(f);
    hide Ascii, Step, CanonicalJson.Distinct, IdFields, IdEntries, IdValues, Print;
    forall e ensures e in IdValues(f) <==> e in IdFields(f) {
      IdMembers(f, e);
    }
    CanonicalObject(IdEntries(f), IdValues(f), IdFields(f));
  }

  lemma IdValuesOf(f: Fields)
    ensures var es, cs := IdEntries(f), IdValues(f);
            && |cs| == |es| && CanonicalJson.Distinct(cs)
            && forall i :: 0 <= i < |es| ==>
                 cs[i].key == es[i].key && cs[i].key != PROTO && Canonicalize(es[i].value) == Some(cs[i].value)
  {
    IdKeys(f);
    DomainText(f.domain);
    hide Ascii, DomainFields, DomainJson;
    var es, cs := IdEntries(f), IdValues(f);
    assert es[2].key == Ascii("domain");
    assert forall i :: 0 <= i < |es| ==> cs[i].key == es[i].key;
  }

  /** And this text is what is signed. */
  lemma MessageText(f: Fields, evidenceId: Text)
    ensures Message(f, evidenceId) ==
            Ok(Ascii("Lichen:PQEvidence:v1:") + Print(Obj(SignedFields(f, evidenceId), true)))
  {
    SigningKeys(f, evidenceId);
    IdSteps(f, evidenceId);
    IdValuesOf(f);
    hide Ascii, Step, CanonicalJson.Distinct, SignedFields, IdEntries, IdValues, Print;
    var id := Field("evidence_id", Str(evidenceId));
    var es, cs := IdEntries(f) + [id], IdValues(f) + [id];
    forall e ensures e in cs <==> e in SignedFields(f, evidenceId) {
      SignedMembers(f, evidenceId, e);
    }
    CanonicalObject(es, cs, SignedFields(f, evidenceId));
  }

  lemma SigningKeys(f: Fields, evidenceId: Text)
    ensures CanonicalJson.Distinct(IdValues(f) + [Field("evidence_id", Str(evidenceId))])
    ensures Ascii("evidence_id") != PROTO
  {
    IdValuesOf(f);
    hide DomainFields, DomainJson;
    var es := IdEntries(f);
    assert forall i :: 0 <= i < |es| ==> IdValues(f)[i].key == es[i].key;
    assert Ascii("evidence_id")[1] == 118 && |Ascii("evidence_id")| == 11;
    assert Ascii("evidence_id")[0] == 101 && Ascii("expires_at_slot")[1] == 120;
  }
}
