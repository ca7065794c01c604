/** What a decoded manifest holds: every field well formed, nothing secret at any depth, and the id asked for. */
module ManifestFields {
  import opened Prelude
  import opened CanonicalJson
  import StringOrder
  import opened ArtifactManifest

  /** The parts of a document, at any depth, itself included. */
  ghost predicate PartOf(v: Json, part: Json) {
    || part == v
    || match v
       case Obj(fields) => exists k :: k in fields && PartOf(fields[k], part)
       case Arr(items) => exists i :: 0 <= i < |items| && PartOf(items[i], part)
       case _ => false
  }

  /** No part has a field of a secret name or is a text with credentials. */
  ghost predicate Clean(rules: Rules, part: Json) {
    && (part.Obj? ==> forall k :: k in part.fields ==> !rules.secretName(k))
    && (part.Str? ==> !rules.badUrl(part.text))
  }

  /** A document is durable exactly when each of its parts, at any depth, is clean. */
  lemma {:induction false} DurableIffClean(rules: Rules, v: Json)
    ensures Durable(rules, v) <==> forall part :: PartOf(v, part) ==> Clean(rules, part)
  {
    match v {
      case Obj(fields) =>
        forall k | k in fields
          ensures Durable(rules, fields[k]) <==> forall part :: PartOf(fields[k], part) ==> Clean(rules, part)
        {
          DurableIffClean(rules, fields[k]);
        }
        assert PartOf(v, v);
      case Arr(items) =>
        forall i | 0 <= i < |items|
          ensures Durable(rules, items[i]) <==> forall part :: PartOf(items[i], part) ==> Clean(rules, part)
        {
          DurableIffClean(rules, items[i]);
        }
      case _ =>
        assert PartOf(v, v);
    }
  }

  predicate Hex(text: string, length: nat) {
    |text| == length && forall i :: 0 <= i < length ==> '0' <= text[i] <= '9' || 'a' <= text[i] <= 'f'
  }

  /** A text that may be stored: not empty, not longer than the limit, no control characters. */
  predicate Plain(text: string, limit: nat) {
    text != "" && |text| <= limit && forall c :: c in text ==> c as int >= 32
  }

  lemma TextMeans(text: string, limit: nat)
    ensures ValidText(text, limit) <==> Plain(text, limit)
  {
    assert forall i :: 0 <= i < |text| ==> text[i] in text;
  }

  lemma DigestMeans(text: string, length: nat)
    ensures ValidDigest(text, length) <==> Hex(text, length)
  {
  }

  predicate ProducerFits(p: Producer) {
    Plain(p.repository, 4096) && Hex(p.sourceRevision, 40) && Hex(p.uvLockSha256, 64)
  }

  predicate ParentFits(p: Parent) {
    Plain(p.role, 128) && Hex(p.artifactId, 64)
  }

  predicate PayloadFits(p: Payload) {
    Plain(p.role, 128) && Hex(p.sha256, 64) && Plain(p.mediaType, 128) && p.size >= 0
  }

  lemma ProducerMeans(rules: Rules, p: Producer)
    ensures ValidProducer(rules, p) <==> ProducerFits(p) && !rules.badUrl(p.repository)
  {
    TextMeans(p.repository, 4096);
    DigestMeans(p.sourceRevision, 40);
    DigestMeans(p.uvLockSha256, 64);
  }

  lemma ParentMeans(p: Parent)
    ensures ValidParent(p) <==> ParentFits(p)
  {
    TextMeans(p.role, 128);
    DigestMeans(p.artifactId, 64);
  }

  lemma PayloadMeans(p: Payload)
    ensures ValidPayload(p) <==> PayloadFits(p)
  {
    TextMeans(p.role, 128);
    TextMeans(p.mediaType, 128);
    DigestMeans(p.sha256, 64);
  }

  /** Every field is well formed, no role is used twice, and no parameter is secret at any depth. */
  ghost predicate Fits(rules: Rules, m: Manifest) {
    && m.kind in rules.kinds && ProducerFits(m.producer) && !rules.badUrl(m.producer.repository)
    && (forall i :: 0 <= i < |m.parents| ==> ParentFits(m.parents[i]))
    && (forall i :: 0 <= i < |m.payloads| ==> PayloadFits(m.payloads[i]))
    && (forall i, j :: 0 <= i < j < |m.parents| ==> m.parents[i].role != m.parents[j].role)
    && (forall i, j :: 0 <= i < j < |m.payloads| ==> m.payloads[i].role != m.payloads[j].role)
    && (forall part :: PartOf(Obj(m.parameters), part) ==> Clean(rules, part))
  }

  /** Decoding accepts only manifests that fit, and every manifest that fits is the decoding of its own bytes, up to
      the order of its parents and payloads. */
  lemma {:induction false} DecodedFits(rules: Rules, raw: seq<Token>, expected: Option<string>, m: Manifest)
    ensures FromBytes(rules, raw, expected).Ok? ==> Fits(rules, FromBytes(rules, raw, expected).value)
    ensures Fits(rules, m) ==> FromBytes(rules, ToBytes(rules, m), None) == Ok(Sorted(m))
  {
    if FromBytes(rules, raw, expected).Ok? {
      ArtifactManifest.Accepted(rules, raw, expected);
      ValidIffFits(rules, FromBytes(rules, raw, expected).value);
    }
    if Fits(rules, m) {
      ValidIffFits(rules, m);
      ManifestRoundTrip(rules, m, None);
    }
  }

  lemma {:induction false} ValidIffFits(rules: Rules, m: Manifest)
    ensures ValidManifest(rules, m) <==> Fits(rules, m)
  {
    ProducerMeans(rules, m.producer);
    forall i | 0 <= i < |m.parents| ensures ValidParent(m.parents[i]) <==> ParentFits(m.parents[i]) {
      ParentMeans(m.parents[i]);
    }
    forall i | 0 <= i < |m.payloads| ensures ValidPayload(m.payloads[i]) <==> PayloadFits(m.payloads[i]) {
      PayloadMeans(m.payloads[i]);
    }
    RolesDiffer(m);
    DurableIffClean(rules, Obj(m.parameters));
  }

  lemma RolesDiffer(m: Manifest)
    ensures StringOrder.DistinctBy(m.parents, PARENT_ROLE) <==>
        forall i, j :: 0 <= i < j < |m.parents| ==> m.parents[i].role != m.parents[j].role
    ensures StringOrder.DistinctBy(m.payloads, PAYLOAD_ROLE) <==>
        forall i, j :: 0 <= i < j < |m.payloads| ==> m.payloads[i].role != m.payloads[j].role
  {
    assert forall i :: 0 <= i < |m.parents| ==> PARENT_ROLE(m.parents[i]) == m.parents[i].role;
    assert forall i :: 0 <= i < |m.payloads| ==> PAYLOAD_ROLE(m.payloads[i]) == m.payloads[i].role;
  }

  /** Asking for an id only adds the comparison with the id the manifest computes. */
  lemma {:induction false} CheckOfId(rules: Rules, m: Manifest, named: Json, raw: seq<Token>, id: string)
    ensures var asked, plain := Check(rules, m, named, raw, Some(id)), Check(rules, m, named, raw, None);
            && (asked.Ok? <==> plain.Ok? && ArtifactId(rules, plain.value) == id)
            && (asked.Ok? ==> asked == plain)
  {
    CheckMeans(rules, m, named, raw, Some(id));
    CheckMeans(rules, m, named, raw, None);
  }

  lemma {:induction false} FieldsOfId(rules: Rules, fields: map<string, Json>, raw: seq<Token>, id: string)
    ensures var asked, plain := FromFields(rules, fields, raw, Some(id)), FromFields(rules, fields, raw, None);
            && (asked.Ok? <==> plain.Ok? && ArtifactId(rules, plain.value) == id)
            && (asked.Ok? ==> asked == plain)
  {
    if fields.Keys == FIELDS && ReadManifest(fields).Some? {
      CheckOfId(rules, ReadManifest(fields).value, fields["artifact_id"], raw, id);
    }
  }

  /** Asking for an id accepts exactly the bytes that are accepted anyway and are of that id. */
  lemma {:induction false} ExpectedIdIff(rules: Rules, raw: seq<Token>, id: string)
    ensures FromBytes(rules, raw, Some(id)).Ok? <==>
        FromBytes(rules, raw, None).Ok? && ArtifactId(rules, FromBytes(rules, raw, None).value) == id
    ensures FromBytes(rules, raw, Some(id)).Ok? ==> FromBytes(rules, raw, Some(id)) == FromBytes(rules, raw, None)
  {
    if Decode(raw).Some? && Decode(raw).value.Obj? {
      FieldsOfId(rules, Decode(raw).value.fields, raw, id);
    }
  }
}
