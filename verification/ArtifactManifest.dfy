/** The artifact manifest: its canonical form, its identity, and the strict decoder. */
module ArtifactManifest {
  import opened Prelude
  import opened StringOrder
  import opened CanonicalJson

  datatype Producer = Producer(repository: string, sourceRevision: string, uvLockSha256: string)

  datatype Parent = Parent(role: string, artifactId: string)

  datatype Payload = Payload(role: string, sha256: string, size: int, mediaType: string)

  datatype Manifest = Manifest(kind: string, producer: Producer, parents: seq<Parent>, payloads: seq<Payload>,
      parameters: map<string, Json>)

  /** What is decided elsewhere: the hash, the kinds, and what may not enter durable metadata. */
  datatype Rules = Rules(hash: seq<Token> -> string, kinds: set<string>, secretName: string -> bool,
      badUrl: string -> bool)

  const MANIFEST_SCHEMA := "stpd/artifact-manifest-v1"

  // ---- Field checks ----

  predicate ValidText(s: string, maximum: nat) {
    0 < |s| <= maximum && forall i :: 0 <= i < |s| ==> s[i] >= ' '
  }

  predicate ValidDigest(s: string, length: nat) {
    |s| == length && forall i :: 0 <= i < |s| ==> HexDigit(s[i])
  }

  /** _validate_durable_metadata. */
  ghost predicate Durable(rules: Rules, v: Json) {
    match v
    case Obj(fields) => forall k :: k in fields ==> !rules.secretName(k) && Durable(rules, fields[k])
    case Arr(items) => forall i :: 0 <= i < |items| ==> Durable(rules, items[i])
    case Str(text) => !rules.badUrl(text)
    case _ => true
  }

  predicate ValidParent(p: Parent) {
    ValidText(p.role, 128) && ValidDigest(p.artifactId, 64)
  }

  predicate ValidPayload(p: Payload) {
    ValidText(p.role, 128) && ValidDigest(p.sha256, 64) && p.size >= 0 && ValidText(p.mediaType, 128)
  }

  ghost predicate ValidProducer(rules: Rules, p: Producer) {
    ValidText(p.repository, 4096) && ValidDigest(p.sourceRevision, 40) && ValidDigest(p.uvLockSha256, 64)
        && !rules.badUrl(p.repository)
  }

  // ---- Sorting by role ----

  function Insert<T>(x: T, s: seq<T>, role: T -> string): seq<T> {
    if s == [] then [x]
    else if Le(role(x), role(s[0])) then [x] + s
    else [s[0]] + Insert(x, s[1..], role)
  }

  /** sorted(s) */
  function SortBy<T>(s: seq<T>, role: T -> string): seq<T> {
    if s == [] then [] else Insert(s[0], SortBy(s[1..], role), role)
  }

  lemma {:induction false} InsertSorts<T>(x: T, s: seq<T>, role: T -> string)
    requires SortedBy(s, role)
    ensures SortedBy(Insert(x, s, role), role) && multiset(Insert(x, s, role)) == multiset{x} + multiset(s)
  {
    if s == [] {
    } else if Le(role(x), role(s[0])) {
      forall i | 0 <= i < |s| ensures Le(role(x), role(s[i])) {
        if i > 0 {
          LeTransitive(role(x), role(s[0]), role(s[i]));
        }
      }
    } else {
      LeTotal(role(x), role(s[0]));
      InsertSorts(x, s[1..], role);
      var rest := Insert(x, s[1..], role);
      assert s == [s[0]] + s[1..];
      forall i | 0 <= i < |rest| ensures Le(role(s[0]), role(rest[i])) {
        assert rest[i] in multiset(rest);
        assert rest[i] == x || rest[i] in s[1..];
      }
    }
  }

  lemma {:induction false} SortSorts<T>(s: seq<T>, role: T -> string)
    ensures SortedBy(SortBy(s, role), role) && multiset(SortBy(s, role)) == multiset(s)
  {
    if s != [] {
      SortSorts(s[1..], role);
      InsertSorts(s[0], SortBy(s[1..], role), role);
      assert s == [s[0]] + s[1..];
    }
  }

  lemma {:induction false} SortOfSorted<T>(s: seq<T>, role: T -> string)
    requires SortedBy(s, role)
    ensures SortBy(s, role) == s
  {
    if s != [] {
      SortOfSorted(s[1..], role);
      assert s == [s[0]] + s[1..];
    }
  }

  lemma {:induction false} PermutedDistinct<T>(a: seq<T>, b: seq<T>, role: T -> string)
    requires multiset(a) == multiset(b) && DistinctBy(b, role)
    ensures DistinctBy(a, role)
  {
    forall i, j | 0 <= i < j < |a| ensures role(a[i]) != role(a[j]) {
      var x, y := a[i], a[j];
      if role(x) == role(y) {
        assert x in multiset(b) && y in multiset(b);
        var k :| 0 <= k < |b| && b[k] == x;
        var l :| 0 <= l < |b| && b[l] == y;
        assert k == l;
        assert a == a[..j] + [a[j]] + a[j + 1..];
        assert a[..j][i] == x;
        assert multiset(a)[x] >= 2;
        Once(b, k, role);
      }
    }
  }

  lemma {:induction false} Once<T>(b: seq<T>, k: nat, role: T -> string)
    requires k < |b| && DistinctBy(b, role)
    ensures multiset(b)[b[k]] == 1
  {
    var x := b[k];
    assert b == b[..k] + [x] + b[k + 1..];
    forall i | 0 <= i < k ensures b[..k][i] != x {
      assert b[..k][i] == b[i];
    }
    var after := b[k + 1..];
    forall i | 0 <= i < |after| ensures after[i] != x {
      assert after[i] == b[k + 1 + i];
    }
    assert x !in b[..k] && x !in after;
  }

  /** Sorting forgets the order in which the elements came. */
  lemma {:induction false} SortForgetsOrder<T>(a: seq<T>, b: seq<T>, role: T -> string)
    requires DistinctBy(a, role)
    ensures multiset(a) == multiset(b) <==> SortBy(a, role) == SortBy(b, role)
  {
    SortSorts(a, role);
    SortSorts(b, role);
    if multiset(a) == multiset(b) {
      PermutedDistinct(SortBy(a, role), a, role);
      SortedByUnique(SortBy(a, role), SortBy(b, role), role);
    }
  }

  // ---- Manifests ----

  const PARENT_ROLE: Parent -> string := (p: Parent) => p.role
  const PAYLOAD_ROLE: Payload -> string := (p: Payload) => p.role

  /** Manifest.__post_init__, with the checks of its parts. */
  ghost predicate ValidManifest(rules: Rules, m: Manifest) {
    && m.kind in rules.kinds && ValidProducer(rules, m.producer)
    && (forall i :: 0 <= i < |m.parents| ==> ValidParent(m.parents[i]))
    && (forall i :: 0 <= i < |m.payloads| ==> ValidPayload(m.payloads[i]))
    && DistinctBy(m.parents, PARENT_ROLE) && DistinctBy(m.payloads, PAYLOAD_ROLE)
    && Durable(rules, Obj(m.parameters))
  }

  function Sorted(m: Manifest): Manifest {
    m.(parents := SortBy(m.parents, PARENT_ROLE), payloads := SortBy(m.payloads, PAYLOAD_ROLE))
  }

  function ProducerJson(p: Producer): Json {
    Obj(map["repository" := Str(p.repository), "source_revision" := Str(p.sourceRevision),
            "uv_lock_sha256" := Str(p.uvLockSha256)])
  }

  function ParentJson(p: Parent): Json {
    Obj(map["role" := Str(p.role), "artifact_id" := Str(p.artifactId)])
  }

  function PayloadJson(p: Payload): Json {
    Obj(map["role" := Str(p.role), "sha256" := Str(p.sha256), "size" := Int(p.size), "media_type" := Str(p.mediaType)])
  }

  function ToArray<T>(s: seq<T>, json: T -> Json): Json {
    Arr(seq(|s|, i requires 0 <= i < |s| => json(s[i])))
  }

  function Body(m: Manifest): map<string, Json> {
    map["schema" := Str(MANIFEST_SCHEMA), "kind" := Str(m.kind), "producer" := ProducerJson(m.producer),
        "parents" := ToArray(SortBy(m.parents, PARENT_ROLE), ParentJson),
        "payloads" := ToArray(SortBy(m.payloads, PAYLOAD_ROLE), PayloadJson),
        "parameters" := Obj(m.parameters)]
  }

  ghost function ArtifactId(rules: Rules, m: Manifest): string {
    rules.hash(Encode(Obj(Body(m))))
  }

  /** {**body, "artifact_id": id} */
  ghost function Whole(rules: Rules, m: Manifest): map<string, Json> {
    Body(m)["artifact_id" := Str(ArtifactId(rules, m))]
  }

  ghost function ToBytes(rules: Rules, m: Manifest): seq<Token> {
    Encode(Obj(Whole(rules, m)))
  }

  // ---- Decoding ----

  function DecodeProducer(v: Json): Option<Producer> {
    if v.Obj? && v.fields.Keys == {"repository", "source_revision", "uv_lock_sha256"}
       && v.fields["repository"].Str? && v.fields["source_revision"].Str? && v.fields["uv_lock_sha256"].Str?
    then Some(Producer(v.fields["repository"].text, v.fields["source_revision"].text, v.fields["uv_lock_sha256"].text))
    else None
  }

  function DecodeParent(v: Json): Option<Parent> {
    if v.Obj? && v.fields.Keys == {"role", "artifact_id"} && v.fields["role"].Str? && v.fields["artifact_id"].Str?
    then Some(Parent(v.fields["role"].text, v.fields["artifact_id"].text))
    else None
  }

  function DecodePayload(v: Json): Option<Payload> {
    if v.Obj? && v.fields.Keys == {"role", "sha256", "size", "media_type"} && v.fields["role"].Str?
        && v.fields["sha256"].Str?
       && v.fields["size"].Int? && v.fields["media_type"].Str?
    then Some(Payload(v.fields["role"].text, v.fields["sha256"].text, v.fields["size"].n, v.fields["media_type"].text))
    else None
  }

  function FromArray<T>(items: seq<Json>, decode: Json -> Option<T>): Option<seq<T>> {
    if items == [] then Some([])
    else
      match decode(items[0])
      case None => None
      case Some(first) =>
        match FromArray(items[1..], decode)
        case None => None
        case Some(rest) => Some([first] + rest)
  }

  const FIELDS: set<string> := {"schema", "artifact_id", "kind", "producer", "parents", "payloads", "parameters"}

  /** The manifest that the fields describe, before its own checks. */
  function ReadManifest(fields: map<string, Json>): Option<Manifest>
    requires fields.Keys == FIELDS
  {
    if !fields["parents"].Arr? || !fields["payloads"].Arr? || !fields["parameters"].Obj?
        || !fields["kind"].Str? then None
    else
      var parents := FromArray(fields["parents"].items, DecodeParent);
      var payloads := FromArray(fields["payloads"].items, DecodePayload);
      var producer := DecodeProducer(fields["producer"]);
      if parents.None? || payloads.None? || producer.None? then None
      else Some(Manifest(fields["kind"].text, producer.value, parents.value, payloads.value,
          fields["parameters"].fields))
  }

  datatype Fault = InvalidDocument | WrongFields | UnsupportedSchema | InvalidPart | IdentityMismatch
      | NonCanonicalBytes

  /** The manifest is valid, it is the one the bytes name, and they are its own bytes. */
  ghost function Check(rules: Rules, m: Manifest, named: Json, raw: seq<Token>,
      expected: Option<string>): Result<Manifest, Fault>
  {
    var id := ArtifactId(rules, m);
    if !ValidManifest(rules, m) then Err(InvalidPart)
    else if named != Str(id) || (expected.Some? && expected.value != id) then Err(IdentityMismatch)
    else if raw != ToBytes(rules, m) then Err(NonCanonicalBytes)
    else Ok(m)
  }

  ghost function FromFields(rules: Rules, fields: map<string, Json>, raw: seq<Token>,
      expected: Option<string>): Result<Manifest, Fault>
  {
    if fields.Keys != FIELDS then Err(WrongFields)
    else if fields["schema"] != Str(MANIFEST_SCHEMA) then Err(UnsupportedSchema)
    else
      match ReadManifest(fields)
      case None => Err(InvalidPart)
      case Some(m) => Check(rules, m, fields["artifact_id"], raw, expected)
  }

  /** Manifest.from_bytes */
  ghost function FromBytes(rules: Rules, raw: seq<Token>, expected: Option<string>): Result<Manifest, Fault> {
    match Decode(raw)
    case None => Err(InvalidDocument)
    case Some(v) => if v.Obj? then FromFields(rules, v.fields, raw, expected) else Err(WrongFields)
  }

  // ---- Round trip ----

  lemma {:induction false} ArrayRoundTrip<T>(s: seq<T>, json: T -> Json, decode: Json -> Option<T>)
    requires forall x :: x in s ==> decode(json(x)) == Some(x)
    ensures FromArray(ToArray(s, json).items, decode) == Some(s)
  {
    if s != [] {
      var items := ToArray(s, json).items;
      ArrayRoundTrip(s[1..], json, decode);
      assert items[1..] == ToArray(s[1..], json).items;
      assert s == [s[0]] + s[1..];
    }
  }

  lemma {:induction false} SortedValid(rules: Rules, m: Manifest)
    requires ValidManifest(rules, m)
    ensures ValidManifest(rules, Sorted(m)) && Sorted(Sorted(m)) == Sorted(m) && Body(Sorted(m)) == Body(m)
  {
    SortSorts(m.parents, PARENT_ROLE);
    SortSorts(m.payloads, PAYLOAD_ROLE);
    PermutedDistinct(Sorted(m).parents, m.parents, PARENT_ROLE);
    PermutedDistinct(Sorted(m).payloads, m.payloads, PAYLOAD_ROLE);
    SortOfSorted(Sorted(m).parents, PARENT_ROLE);
    SortOfSorted(Sorted(m).payloads, PAYLOAD_ROLE);
    PermutedAll(Sorted(m).parents, m.parents, ValidParent);
    PermutedAll(Sorted(m).payloads, m.payloads, ValidPayload);
  }

  lemma PermutedAll<T>(a: seq<T>, b: seq<T>, p: T -> bool)
    requires multiset(a) == multiset(b) && forall i :: 0 <= i < |b| ==> p(b[i])
    ensures forall i :: 0 <= i < |a| ==> p(a[i])
  {
    forall i | 0 <= i < |a| ensures p(a[i]) {
      assert a[i] in multiset(b);
    }
  }

  /** The seven fields and what they hold. */
  ghost predicate Holds(fields: map<string, Json>, m: Manifest, id: string) {
    && fields.Keys == FIELDS
    && fields["schema"] == Str(MANIFEST_SCHEMA) && fields["artifact_id"] == Str(id) && fields["kind"] == Str(m.kind)
    && fields["producer"] == ProducerJson(m.producer) && fields["parameters"] == Obj(m.parameters)
    && fields["parents"] == ToArray(SortBy(m.parents, PARENT_ROLE), ParentJson)
    && fields["payloads"] == ToArray(SortBy(m.payloads, PAYLOAD_ROLE), PayloadJson)
  }

  lemma NamesDiffer()
    ensures "schema" != "kind" && "schema" != "producer" && "schema" != "parents" && "schema" != "payloads"
        && "schema" != "parameters"
    ensures "kind" != "producer" && "kind" != "parents" && "kind" != "payloads" && "kind" != "parameters"
    ensures "producer" != "parents" && "producer" != "payloads" && "producer" != "parameters"
    ensures "parents" != "payloads" && "parents" != "parameters" && "payloads" != "parameters"
    ensures "artifact_id" != "schema" && "artifact_id" != "kind" && "artifact_id" != "producer"
    ensures "artifact_id" != "parents" && "artifact_id" != "payloads" && "artifact_id" != "parameters"
  {
    assert |"schema"| == 6 && |"kind"| == 4 && |"producer"| == 8 && |"parents"| == 7 && |"payloads"| == 8
        && |"parameters"| == 10;
    assert |"artifact_id"| == 11;
    assert "producer"[1] == 'r' && "payloads"[1] == 'a';
  }

  /** Looking up seven different keys. */
  lemma SevenFields(a: string, b: string, c: string, d: string, e: string, f: string, g: string,
                    u: Json, v: Json, w: Json, x: Json, y: Json, z: Json, t: Json)
    requires a != b && a != c && a != d && a != e && a != f && b != c && b != d && b != e && b != f
    requires c != d && c != e && c != f && d != e && d != f && e != f
    requires g != a && g != b && g != c && g != d && g != e && g != f
    ensures var all := map[a := u, b := v, c := w, d := x, e := y, f := z][g := t];
            && all.Keys == {a, g, b, c, d, e, f}
            && all[a] == u && all[b] == v && all[c] == w && all[d] == x && all[e] == y && all[f] == z && all[g] == t
  {
  }

  lemma WholeHolds(rules: Rules, m: Manifest)
    ensures Holds(Whole(rules, m), m, ArtifactId(rules, m))
  {
    NamesDiffer();
    SevenFields("schema", "kind", "producer", "parents", "payloads", "parameters", "artifact_id",
                Str(MANIFEST_SCHEMA), Str(m.kind), ProducerJson(m.producer),
                ToArray(SortBy(m.parents, PARENT_ROLE), ParentJson),
                ToArray(SortBy(m.payloads, PAYLOAD_ROLE), PayloadJson), Obj(m.parameters), Str(ArtifactId(rules, m)));
  }

  lemma ProducerRoundTrip(p: Producer)
    ensures DecodeProducer(ProducerJson(p)) == Some(p)
  {
  }

  lemma ParentRoundTrip(p: Parent)
    ensures DecodeParent(ParentJson(p)) == Some(p)
  {
  }

  lemma PayloadRoundTrip(p: Payload)
    ensures DecodePayload(PayloadJson(p)) == Some(p)
  {
  }

  lemma ParentsRoundTrip(s: seq<Parent>)
    ensures FromArray(ToArray(s, ParentJson).items, DecodeParent) == Some(s)
  {
    forall p | p in s ensures DecodeParent(ParentJson(p)) == Some(p) {
      ParentRoundTrip(p);
    }
    ArrayRoundTrip(s, ParentJson, DecodeParent);
  }

  lemma PayloadsRoundTrip(s: seq<Payload>)
    ensures FromArray(ToArray(s, PayloadJson).items, DecodePayload) == Some(s)
  {
    forall p | p in s ensures DecodePayload(PayloadJson(p)) == Some(p) {
      PayloadRoundTrip(p);
    }
    ArrayRoundTrip(s, PayloadJson, DecodePayload);
  }

  lemma {:induction false} ReadWritten(fields: map<string, Json>, m: Manifest, id: string)
    requires Holds(fields, m, id)
    ensures ReadManifest(fields) == Some(Sorted(m))
  {
    ParentsRoundTrip(SortBy(m.parents, PARENT_ROLE));
    PayloadsRoundTrip(SortBy(m.payloads, PAYLOAD_ROLE));
    ProducerRoundTrip(m.producer);
  }

  lemma CheckMeans(rules: Rules, m: Manifest, named: Json, raw: seq<Token>, expected: Option<string>)
    ensures Check(rules, m, named, raw, expected).Ok? <==>
              && ValidManifest(rules, m) && named == Str(ArtifactId(rules, m)) && raw == ToBytes(rules, m)
              && (expected.Some? ==> expected.value == ArtifactId(rules, m))
    ensures Check(rules, m, named, raw, expected).Ok? ==> Check(rules, m, named, raw, expected).value == m
  {
  }

  /** Decoding a manifest's own bytes gives the manifest with parents and payloads sorted, and the same id. */
  lemma {:induction false} ManifestRoundTrip(rules: Rules, m: Manifest, expected: Option<string>)
    requires ValidManifest(rules, m) && (expected.Some? ==> expected.value == ArtifactId(rules, m))
    ensures FromBytes(rules, ToBytes(rules, m), expected) == Ok(Sorted(m))
    ensures ArtifactId(rules, Sorted(m)) == ArtifactId(rules, m)
  {
    SortedValid(rules, m);
    JsonRoundTrip(Obj(Whole(rules, m)));
    WholeHolds(rules, m);
    ReadWritten(Whole(rules, m), m, ArtifactId(rules, m));
    CheckMeans(rules, Sorted(m), Str(ArtifactId(rules, m)), ToBytes(rules, m), expected);
  }

  lemma Accepted(rules: Rules, raw: seq<Token>, expected: Option<string>)
    requires FromBytes(rules, raw, expected).Ok?
    ensures var m := FromBytes(rules, raw, expected).value; ValidManifest(rules, m) && raw == ToBytes(rules, m)
  {
    var fields := Decode(raw).value.fields;
    CheckMeans(rules, ReadManifest(fields).value, fields["artifact_id"], raw, expected);
  }

  /** The decoder accepts exactly the bytes of valid manifests, and returns a sorted one with those bytes. */
  lemma {:induction false} OnlyCanonicalBytes(rules: Rules, raw: seq<Token>)
    ensures FromBytes(rules, raw, None).Ok? <==> exists m :: ValidManifest(rules, m) && raw == ToBytes(rules, m)
    ensures FromBytes(rules, raw, None).Ok? ==>
              var m := FromBytes(rules, raw, None).value;
              ValidManifest(rules, m) && raw == ToBytes(rules, m) && Sorted(m) == m
  {
    if FromBytes(rules, raw, None).Ok? {
      Accepted(rules, raw, None);
      ManifestRoundTrip(rules, FromBytes(rules, raw, None).value, None);
    }
    if m :| ValidManifest(rules, m) && raw == ToBytes(rules, m) {
      ManifestRoundTrip(rules, m, None);
    }
  }

  // ---- Identity ----

  /** The same manifest up to the order of its parents and of its payloads. */
  ghost predicate SameContent(a: Manifest, b: Manifest) {
    && a.kind == b.kind && a.producer == b.producer && a.parameters == b.parameters
    && multiset(a.parents) == multiset(b.parents) && multiset(a.payloads) == multiset(b.payloads)
  }

  ghost predicate NoCollision(rules: Rules) {
    forall x, y :: rules.hash(x) == rules.hash(y) ==> x == y
  }

  /** Permuting parents or payloads changes neither the bytes nor the id. */
  lemma {:induction false} OrderForgotten(rules: Rules, a: Manifest, b: Manifest)
    requires ValidManifest(rules, a) && SameContent(a, b)
    ensures ArtifactId(rules, a) == ArtifactId(rules, b) && ToBytes(rules, a) == ToBytes(rules, b)
  {
    SortForgetsOrder(a.parents, b.parents, PARENT_ROLE);
    SortForgetsOrder(a.payloads, b.payloads, PAYLOAD_ROLE);
    assert Body(a) == Body(b);
  }

  lemma SameWhole(rules: Rules, a: Manifest, b: Manifest)
    requires Body(a) == Body(b)
    ensures Sorted(a) == Sorted(b)
  {
    WholeHolds(rules, a);
    WholeHolds(rules, b);
    ReadWritten(Whole(rules, a), a, ArtifactId(rules, a));
    ReadWritten(Whole(rules, b), b, ArtifactId(rules, b));
  }

  /** Without hash collisions, two manifests have one id exactly when they have the same content. */
  lemma {:induction false} SameIdIffSameContent(rules: Rules, a: Manifest, b: Manifest)
    requires ValidManifest(rules, a) && ValidManifest(rules, b) && NoCollision(rules)
    ensures ArtifactId(rules, a) == ArtifactId(rules, b) <==> SameContent(a, b)
  {
    if ArtifactId(rules, a) == ArtifactId(rules, b) {
      EncodeInjective(Obj(Body(a)), Obj(Body(b)));
      SameWhole(rules, a, b);
      SortForgetsOrder(a.parents, b.parents, PARENT_ROLE);
      SortForgetsOrder(a.payloads, b.payloads, PAYLOAD_ROLE);
    } else if SameContent(a, b) {
      OrderForgotten(rules, a, b);
    }
  }
}
