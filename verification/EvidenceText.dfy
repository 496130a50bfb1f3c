/**
  The normalizers every evidence field goes through, and that each of them leaves its own
  results alone. What the JavaScript host does is a parameter.
*/
module EvidenceText {
  import opened Bytes
  import opened JsonText
  import opened CanonicalJson
  import Trimming

  /** What the source throws. */
  datatype Error =
    | Missing | NotDecimal | NotSafeInteger | NotHash | UnknownKind | NotCanonical | NotObject
    | Expiry | SchemaVersion | NotHex | NoPublicKey | NoSignature | NoSigners | TooFewSigners
    | AddressMismatch | PayloadMismatch | IdMismatch | WrongKind | WrongDomain | Stale | Consumed
    | NoVerifier | TrustedTooSmall | SignerMismatch | DuplicateSigner | Untrusted | BadSignature
    | QuorumNotMet

  datatype Result<+T> = Ok(value: T) | Err(error: Error) {
    predicate IsFailure() { Err? }

    function PropagateFailure<U>(): Result<U>
      requires Err?
    {
      Err(error)
    }

    function Extract(): T
      requires Ok?
    {
      value
    }
  }

  /** A PQ signature object; `publicKey` is `public_key.bytes` when that is a string. */
  datatype PqSignature = PqSignature(publicKey: Option<Text>, body: seq<byte>)

  datatype Keypair = Keypair(secret: nat, address: Text)

  type Digest = s: seq<byte> | |s| == 32 witness seq(32, _ => 0)

  /** The host: `String` of a value that is not a string, truth of one that is not JSON,
      `toLowerCase`, `Number` of a string, the hex SHA-256 of a text's UTF-8, SHA-256 of bytes,
      and the signature scheme. */
  datatype Host = Host(
    text: Json -> Text,
    truthy: Json -> bool,
    lower: Text -> Text,
    number: Text -> Json,
    hash: Text -> Text,
    digest: seq<byte> -> Digest,
    sign: (Text, Keypair) -> PqSignature,
    verify: (Text, PqSignature, seq<byte>) -> bool)

  // ---------------------------------------------------------------------
  // Trimming
  // ---------------------------------------------------------------------

  predicate IsSpace(u: Unit) {
    9 <= u <= 13 || u in {32, 160, 0x1680, 0x2028, 0x2029, 0x202F, 0x205F, 0x3000, 0xFEFF} || 0x2000 <= u <= 0x200A
  }

  function Trim(t: Text): (r: Text)
    ensures Trimmed(r)
  {
    Trimming.Trim(IsSpace, t)
  }

  predicate Trimmed(t: Text) {
    Trimming.Trimmed(IsSpace, t)
  }

  // ---------------------------------------------------------------------
  // The normalizers
  // ---------------------------------------------------------------------

  const MAX_SAFE_INTEGER: nat := 0x1F_FFFF_FFFF_FFFF

  function ToText(host: Host, j: Json): Text {
    if j.Str? then j.s else host.text(j)
  }

  /** A field is absent when it is undefined. */
  function NonEmpty(host: Host, v: Option<Json>): (r: Result<Text>)
    ensures r.Ok? ==> r.value != [] && Trimmed(r.value)
  {
    if v.None? || v.value.Null? then Err(Missing)
    else
      var t := Trim(ToText(host, v.value));
      if t == [] then Err(Missing) else Ok(t)
  }

  function Lower(host: Host, v: Option<Json>): Result<Text> {
    var t :- NonEmpty(host, v);
    Ok(host.lower(t))
  }

  predicate AllDigits(t: Text) {
    t != [] && forall i :: 0 <= i < |t| ==> IsDigit(t[i])
  }

  function ChainId(host: Host, v: Option<Json>): Result<Text> {
    var t :- NonEmpty(host, v);
    if AllDigits(t) then Ok(t) else Err(NotDecimal)
  }

  function AsNumber(host: Host, v: Option<Json>): Option<Json> {
    if v.Some? && v.value.Str? && Trim(v.value.s) != [] then Some(host.number(v.value.s)) else v
  }

  function Integer(host: Host, v: Option<Json>, least: nat): (r: Result<nat>)
    ensures r.Ok? ==> least <= r.value <= MAX_SAFE_INTEGER
  {
    var n := AsNumber(host, v);
    if n.Some? && n.value.Num? && least <= n.value.n <= MAX_SAFE_INTEGER then Ok(n.value.n) else Err(NotSafeInteger)
  }

  function Slot(host: Host, v: Option<Json>): Result<nat> { Integer(host, v, 0) }

  function Positive(host: Host, v: Option<Json>): Result<nat> { Integer(host, v, 1) }

  predicate IsLowerHex(u: Unit) { 48 <= u <= 57 || 97 <= u <= 102 }

  predicate IsHash(t: Text) {
    |t| == 64 && forall i :: 0 <= i < |t| ==> IsLowerHex(t[i])
  }

  function WithoutPrefix(t: Text): Text {
    if |t| >= 2 && t[0] == 48 && (t[1] == 120 || t[1] == 88) then t[2..] else t
  }

  function ManifestHash(host: Host, v: Option<Json>): (r: Result<Text>)
    ensures r.Ok? ==> IsHash(r.value)
  {
    var t :- NonEmpty(host, v);
    var h := host.lower(WithoutPrefix(t));
    if IsHash(h) then Ok(h) else Err(NotHash)
  }

  /** An ASCII literal as UTF-16. */
  function Ascii(s: string): (t: Text)
    ensures |t| == |s|
    ensures forall i :: 0 <= i < |s| ==> t[i] == (if s[i] < 128 as char then s[i] as int else 0)
  {
    seq(|s|, i requires 0 <= i < |s| => if s[i] < 128 as char then s[i] as int else 0)
  }

  function Kinds(): set<Text> {
    {Ascii("route_health"), Ascii("reserve_status"), Ascii("deployment_manifest"), Ascii("incident_hash"),
     Ascii("custody_policy"), Ascii("agent_action")}
  }

  function Kind(host: Host, v: Option<Json>): (r: Result<Text>)
    ensures r.Ok? ==> r.value in Kinds()
  {
    hide Kinds;
    var t :- Lower(host, v);
    if t in Kinds() then Ok(t) else Err(UnknownKind)
  }

  // ---------------------------------------------------------------------
  // Domains
  // ---------------------------------------------------------------------

  /** A field that may be spelled in snake case or in camel case. */
  datatype Spelled = Spelled(snake: Option<Json>, camel: Option<Json>)

  datatype RawDomain =
    | NoDomain
    | RawDomain(lichenNetwork: Spelled, neoNetwork: Spelled, neoChainId: Spelled,
                route: Option<Json>, asset: Option<Json>, purpose: Option<Json>)

  datatype Domain = Domain(lichenNetwork: Text, neoNetwork: Text, neoChainId: Text, route: Text, asset: Text,
                           purpose: Text)

  function SnakeFirst(s: Spelled): Option<Json> { if s.snake.Some? then s.snake else s.camel }

  function CamelFirst(s: Spelled): Option<Json> { if s.camel.Some? then s.camel else s.snake }

  function DefaultPurpose(): Text { Ascii("neo-x-pq-watchtower") }

  function NormalizeDomain(host: Host, raw: RawDomain): Result<Domain> {
    if raw.NoDomain? then Err(NotObject)
    else
      var lichen :- Lower(host, SnakeFirst(raw.lichenNetwork));
      var neo :- Lower(host, SnakeFirst(raw.neoNetwork));
      var chain :- ChainId(host, SnakeFirst(raw.neoChainId));
      var route :- Lower(host, raw.route);
      var asset :- Lower(host, raw.asset);
      var purpose :- Lower(host, if raw.purpose.Some? then raw.purpose else Some(Str(DefaultPurpose())));
      Ok(Domain(lichen, neo, chain, route, asset, purpose))
  }

  function Given(t: Text): Option<Json> { Some(Str(t)) }

  function Snake(t: Text): Spelled { Spelled(Given(t), None) }

  /** A normalized domain, read again as input. */
  function RereadDomain(d: Domain): RawDomain {
    RawDomain(Snake(d.lichenNetwork), Snake(d.neoNetwork), Snake(d.neoChainId), Given(d.route), Given(d.asset),
              Given(d.purpose))
  }

  // ---------------------------------------------------------------------
  // Normalizing twice
  // ---------------------------------------------------------------------

  /** The laws of the host used here: lower-casing is idempotent and keeps a trimmed,
      non-empty text so; a text's digest is 64 lower-case hex digits. */
  ghost predicate Lawful(host: Host) {
    && (forall t :: host.lower(host.lower(t)) == host.lower(t))
    && (forall t :: t != [] && Trimmed(t) ==> host.lower(t) != [] && Trimmed(host.lower(t)))
    && (forall t :: IsHash(host.hash(t)) && host.lower(host.hash(t)) == host.hash(t))
  }

  lemma NonEmptyTwice(host: Host, t: Text)
    requires t != [] && Trimmed(t)
    ensures NonEmpty(host, Given(t)) == Ok(t)
  {
    Trimming.TrimTwice(IsSpace, t);
  }

  lemma LowerTwice(host: Host, v: Option<Json>)
    requires Lawful(host) && Lower(host, v).Ok?
    ensures Lower(host, Given(Lower(host, v).value)) == Lower(host, v)
  {
    hide Trim, Trimmed;
    NonEmptyTwice(host, Lower(host, v).value);
  }

  lemma ChainIdTwice(host: Host, v: Option<Json>)
    requires ChainId(host, v).Ok?
    ensures ChainId(host, Given(ChainId(host, v).value)) == ChainId(host, v)
  {
    NonEmptyTwice(host, ChainId(host, v).value);
  }

  lemma HashTwice(host: Host, h: Text)
    requires IsHash(h) && host.lower(h) == h
    ensures ManifestHash(host, Given(h)) == Ok(h)
  {
    assert IsLowerHex(h[0]) && IsLowerHex(h[1]) && IsLowerHex(h[63]);
    NonEmptyTwice(host, h);
  }

  lemma ManifestHashTwice(host: Host, v: Option<Json>)
    requires Lawful(host) && ManifestHash(host, v).Ok?
    ensures ManifestHash(host, Given(ManifestHash(host, v).value)) == ManifestHash(host, v)
    ensures host.lower(ManifestHash(host, v).value) == ManifestHash(host, v).value
  {
    HashTwice(host, ManifestHash(host, v).value);
  }

  lemma KindTwice(host: Host, v: Option<Json>)
    requires Lawful(host) && Kind(host, v).Ok?
    ensures Kind(host, Given(Kind(host, v).value)) == Kind(host, v)
  {
    hide Kinds;
    LowerTwice(host, v);
  }

  lemma DomainTwice(host: Host, raw: RawDomain)
    requires Lawful(host) && NormalizeDomain(host, raw).Ok?
    ensures NormalizeDomain(host, RereadDomain(NormalizeDomain(host, raw).value)) == NormalizeDomain(host, raw)
  {
    hide Lower, ChainId, DefaultPurpose, Lawful;
    LowerTwice(host, SnakeFirst(raw.lichenNetwork));
    LowerTwice(host, SnakeFirst(raw.neoNetwork));
    ChainIdTwice(host, SnakeFirst(raw.neoChainId));
    LowerTwice(host, raw.route);
    LowerTwice(host, raw.asset);
    LowerTwice(host, if raw.purpose.Some? then raw.purpose else Some(Str(DefaultPurpose())));
  }
}
