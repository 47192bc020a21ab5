/** Trust bundles and federation relationships between the SPIRE API form and the internal form. */
module Bundles {
  import opened Wrappers

  type Bytes = seq<bv8>

  type Int64 = x: int | -0x8000_0000_0000_0000 <= x < 0x8000_0000_0000_0000
  type Uint64 = x: int | 0 <= x < 0x1_0000_0000_0000_0000

  // ----- The API form and the internal form

  datatype JwtKey = JwtKey(publicKey: Bytes, keyId: string, expiresAt: Int64)

  datatype ApiBundle = ApiBundle(
    trustDomain: string, x509Authorities: seq<Bytes>, jwtAuthorities: seq<JwtKey>,
    refreshHint: Int64, sequenceNumber: Uint64)

  datatype Bundle<Cert, Key> = Bundle(
    trustDomain: string, x509Authorities: seq<Cert>, jwtAuthorities: map<string, Key>,
    refreshHint: Option<Int64>, sequenceNumber: Option<Uint64>)

  datatype Error =
    | BadTrustDomain | BadCertificate | MissingRawData | MissingKeyId | BadPublicKey
    | BadUrl | MissingProfileData | BadEndpointId | MissingProfile | UnknownProfile | MissingTrustDomain

  /** The libraries the conversions rely on: trust domains, X.509, PKIX, URL validation and SPIFFE IDs. */
  datatype Codec<!Cert, !Key> = Codec(
    trustDomainFromString: string -> Option<string>,
    parseCertificate: Bytes -> Option<Cert>, raw: Cert -> Bytes,
    parsePublicKey: Bytes -> Option<Key>, marshalPublicKey: Key -> Option<Bytes>,
    validUrl: string -> bool, spiffeIdFromString: string -> Option<string>)

  /** A certificate that parses keeps its data. */
  predicate KeepsRaw<Cert, Key>(c: Codec<Cert, Key>, x: Bytes) {
    c.parseCertificate(x).Some? ==> x != [] && c.raw(c.parseCertificate(x).value) == x
  }

  /** Not every key that parses: the library reads DSA keys, for one, but does not write them. */
  predicate CanMarshal<Cert, Key>(c: Codec<Cert, Key>, k: JwtKey) {
    c.parsePublicKey(k.publicKey).Some? && c.marshalPublicKey(c.parsePublicKey(k.publicKey).value).Some?
  }

  /** A key that parses and can be marshalled is marshalled to the same data. */
  predicate KeepsKey<Cert, Key>(c: Codec<Cert, Key>, k: JwtKey) {
    CanMarshal(c, k) ==> c.marshalPublicKey(c.parsePublicKey(k.publicKey).value).value == k.publicKey
  }

  predicate NamesTrustDomain<Cert, Key>(c: Codec<Cert, Key>, s: string) {
    c.trustDomainFromString(s).Some? ==> c.trustDomainFromString(s).value != ""
  }

  /** What is assumed of the libraries, for the data of one bundle: what they print back is what they parsed. */
  ghost predicate PrintsBack<Cert, Key>(c: Codec<Cert, Key>, b: ApiBundle) {
    && NamesTrustDomain(c, b.trustDomain)
    && (forall x | x in b.x509Authorities :: KeepsRaw(c, x))
    && (forall k | k in b.jwtAuthorities :: KeepsKey(c, k))
  }

  // ----- Durations

  const SECOND := 1_000_000_000

  /** int64 arithmetic wraps around. */
  function Wrap(x: int): (r: Int64)
    ensures -0x8000_0000_0000_0000 <= x < 0x8000_0000_0000_0000 ==> r == x
  {
    (x + 0x8000_0000_0000_0000) % 0x1_0000_0000_0000_0000 - 0x8000_0000_0000_0000
  }

  /** Go's division truncates toward zero. */
  function Quotient(x: int, y: int): int
    requires y > 0
  {
    if x >= 0 then x / y else -((-x) / y)
  }

  function ToNanoseconds(hint: Int64): Int64 {
    Wrap(hint * SECOND)
  }

  function ToSeconds(duration: Int64): (r: Int64)
    ensures -9223372036 <= r <= 9223372036
  {
    Quotient(duration, SECOND)
  }

  /** A hint in seconds survives the passage through nanoseconds exactly up to 9223372036 either way. */
  lemma HintRoundTrip(hint: Int64)
    ensures ToSeconds(ToNanoseconds(hint)) == hint <==> -9223372036 <= hint <= 9223372036
  {
  }

  // ----- Authorities

  function CertificatesFrom<Cert, Key>(c: Codec<Cert, Key>, ins: seq<Bytes>): Result<seq<Cert>, Error> {
    if ins == [] then Ok([])
    else match CertificatesFrom(c, ins[..|ins| - 1])
      case Err(e) => Err(e)
      case Ok(outs) =>
        var last := c.parseCertificate(ins[|ins| - 1]);
        if last.None? then Err(BadCertificate) else Ok(outs + [last.value])
  }

  lemma {:induction false} FirstCertificateError<Cert, Key>(c: Codec<Cert, Key>, ins: seq<Bytes>, i: nat)
    requires i < |ins| && CertificatesFrom(c, ins[..i]).Ok? && c.parseCertificate(ins[i]).None?
    ensures CertificatesFrom(c, ins) == Err(BadCertificate)
    decreases |ins|
  {
    var n := |ins| - 1;
    if i < n {
      assert ins[..n][..i] == ins[..i];
      FirstCertificateError(c, ins[..n], i);
    }
  }

  method X509AuthoritiesFromAPI<Cert, Key>(c: Codec<Cert, Key>, ins: seq<Bytes>)
    returns (res: Result<seq<Cert>, Error>)
    ensures res == CertificatesFrom(c, ins)
  {
    var outs: seq<Cert> := [];
    for i := 0 to |ins|
      invariant CertificatesFrom(c, ins[..i]) == Ok(outs)
    {
      assert ins[..i + 1][..i] == ins[..i];
      var out := c.parseCertificate(ins[i]);
      if out.None? {
        FirstCertificateError(c, ins, i);
        return Err(BadCertificate);
      }
      outs := outs + [out.value];
    }
    assert ins[..|ins|] == ins;
    return Ok(outs);
  }

  /** Conversion succeeds exactly when every certificate parses, and keeps their order. */
  lemma {:induction false} CertificatesExact<Cert, Key>(c: Codec<Cert, Key>, ins: seq<Bytes>)
    ensures CertificatesFrom(c, ins).Ok? <==> forall b | b in ins :: c.parseCertificate(b).Some?
    ensures CertificatesFrom(c, ins).Ok? ==>
      var outs := CertificatesFrom(c, ins).value;
      |outs| == |ins| && forall i | 0 <= i < |ins| :: c.parseCertificate(ins[i]) == Some(outs[i])
    decreases |ins|
  {
    if ins == [] {
    } else {
      var n := |ins| - 1;
      CertificatesExact(c, ins[..n]);
      assert ins == ins[..n] + [ins[n]];
    }
  }

  method X509AuthoritiesToAPI<Cert, Key>(c: Codec<Cert, Key>, ins: seq<Cert>) returns (res: Result<seq<Bytes>, Error>)
    ensures res.Ok? <==> forall i | 0 <= i < |ins| :: c.raw(ins[i]) != []
    ensures res.Ok? ==> |res.value| == |ins| && forall i | 0 <= i < |ins| :: res.value[i] == c.raw(ins[i])
    ensures res.Err? ==> res.error == MissingRawData
  {
    var outs: seq<Bytes> := [];
    for i := 0 to |ins|
      invariant |outs| == i && forall k | 0 <= k < i :: c.raw(ins[k]) != [] && outs[k] == c.raw(ins[k])
    {
      if |c.raw(ins[i])| == 0 {
        return Err(MissingRawData);
      }
      outs := outs + [c.raw(ins[i])];
    }
    return Ok(outs);
  }

  function JwtFrom<Cert, Key>(c: Codec<Cert, Key>, key: JwtKey): Result<(string, Key), Error> {
    if key.keyId == "" then Err(MissingKeyId)
    else
      var parsed := c.parsePublicKey(key.publicKey);
      if parsed.None? then Err(BadPublicKey) else Ok((key.keyId, parsed.value))
  }

  function JwtsFrom<Cert, Key>(c: Codec<Cert, Key>, ins: seq<JwtKey>): Result<map<string, Key>, Error> {
    if ins == [] then Ok(map[])
    else match JwtsFrom(c, ins[..|ins| - 1])
      case Err(e) => Err(e)
      case Ok(outs) =>
        match JwtFrom(c, ins[|ins| - 1])
        case Err(e) => Err(e)
        case Ok(entry) => Ok(outs[entry.0 := entry.1])
  }

  lemma {:induction false} FirstJwtError<Cert, Key>(c: Codec<Cert, Key>, ins: seq<JwtKey>, i: nat)
    requires i < |ins| && JwtsFrom(c, ins[..i]).Ok? && JwtFrom(c, ins[i]).Err?
    ensures JwtsFrom(c, ins).Err? && JwtsFrom(c, ins).error == JwtFrom(c, ins[i]).error
    decreases |ins|
  {
    var n := |ins| - 1;
    if i < n {
      assert ins[..n][..i] == ins[..i];
      FirstJwtError(c, ins[..n], i);
    }
  }

  method JwtAuthoritiesFromAPI<Cert, Key>(c: Codec<Cert, Key>, ins: seq<JwtKey>)
    returns (res: Result<map<string, Key>, Error>)
    ensures res == JwtsFrom(c, ins)
  {
    var outs: map<string, Key> := map[];
    for i := 0 to |ins|
      invariant JwtsFrom(c, ins[..i]) == Ok(outs)
    {
      assert ins[..i + 1][..i] == ins[..i];
      var entry := JwtFrom(c, ins[i]);
      if entry.Err? {
        FirstJwtError(c, ins, i);
        return Err(entry.error);
      }
      outs := outs[entry.value.0 := entry.value.1];
    }
    assert ins[..|ins|] == ins;
    return Ok(outs);
  }

  /** The last key with this id. */
  function LastKey(ins: seq<JwtKey>, id: string): Option<JwtKey> {
    if ins == [] then None
    else if ins[|ins| - 1].keyId == id then Some(ins[|ins| - 1])
    else LastKey(ins[..|ins| - 1], id)
  }

  /** Conversion succeeds exactly when every key has an id and parses; of keys with one id the last is kept. */
  lemma {:induction false} JwtsExact<Cert, Key>(c: Codec<Cert, Key>, ins: seq<JwtKey>)
    ensures JwtsFrom(c, ins).Ok? <==> forall k | k in ins :: k.keyId != "" && c.parsePublicKey(k.publicKey).Some?
    ensures JwtsFrom(c, ins).Ok? ==>
      forall id :: var m := JwtsFrom(c, ins).value; var last := LastKey(ins, id);
        && (id in m <==> last.Some?)
        && (id in m ==> id != "" && c.parsePublicKey(last.value.publicKey) == Some(m[id]))
    decreases |ins|
  {
    if ins == [] {
    } else {
      var n := |ins| - 1;
      JwtsExact(c, ins[..n]);
      assert ins == ins[..n] + [ins[n]];
    }
  }

  predicate HasKey(keys: seq<JwtKey>, id: string) {
    exists k | k in keys :: k.keyId == id
  }

  /** The API keys of a map: one per id, in any order, without an expiry. */
  ghost predicate KeysOf<Cert, Key>(c: Codec<Cert, Key>, m: map<string, Key>, outs: seq<JwtKey>) {
    && (forall i, j | 0 <= i < j < |outs| :: outs[i].keyId != outs[j].keyId)
    && (forall k | k in outs ::
          k.keyId in m && c.marshalPublicKey(m[k.keyId]) == Some(k.publicKey) && k.expiresAt == 0)
    && (forall id | id in m :: HasKey(outs, id))
  }

  predicate Marshals<Cert, Key>(c: Codec<Cert, Key>, id: string, key: Key) {
    id != "" && c.marshalPublicKey(key).Some?
  }

  lemma KeysOfSnoc<Cert, Key>(
    c: Codec<Cert, Key>, m: map<string, Key>, outs: seq<JwtKey>, id: string, key: Key, bytes: Bytes)
    requires KeysOf(c, m, outs) && id !in m && c.marshalPublicKey(key) == Some(bytes)
    ensures KeysOf(c, m[id := key], outs + [JwtKey(bytes, id, 0)])
  {
  }

  /** Something is wrong with a key: it has no id, or cannot be marshalled. */
  ghost predicate BadKey<Cert, Key>(c: Codec<Cert, Key>, m: map<string, Key>, e: Error) {
    || (e == MissingKeyId && "" in m)
    || (e == BadPublicKey && exists id | id in m :: c.marshalPublicKey(m[id]).None?)
  }

  method JwtAuthoritiesToAPI<Cert, Key>(c: Codec<Cert, Key>, ins: map<string, Key>)
    returns (res: Result<seq<JwtKey>, Error>)
    ensures res.Ok? <==> forall id | id in ins :: Marshals(c, id, ins[id])
    ensures res.Ok? ==> KeysOf(c, ins, res.value)
    ensures res.Err? ==> BadKey(c, ins, res.error)
  {
    var outs: seq<JwtKey> := [];
    var todo := ins.Keys;
    while todo != {}
      invariant todo <= ins.Keys
      invariant KeysOf(c, map id | id in ins && id !in todo :: ins[id], outs)
      invariant forall id | id in ins && id !in todo :: Marshals(c, id, ins[id])
      decreases |todo|
    {
      var id :| id in todo;
      var bytes := c.marshalPublicKey(ins[id]);
      if id == "" || bytes.None? {
        return Err(if id == "" then MissingKeyId else BadPublicKey);
      }
      KeysOfSnoc(c, map x | x in ins && x !in todo :: ins[x], outs, id, ins[id], bytes.value);
      ghost var done := map x | x in ins && x !in todo :: ins[x];
      assert (map x | x in ins && x !in todo - {id} :: ins[x]) == done[id := ins[id]];
      outs := outs + [JwtKey(bytes.value, id, 0)];
      todo := todo - {id};
    }
    assert (map id | id in ins && id !in todo :: ins[id]) == ins;
    return Ok(outs);
  }

  // ----- Bundles

  function BundleFrom<Cert, Key>(c: Codec<Cert, Key>, b: ApiBundle): Result<Bundle<Cert, Key>, Error> {
    var td := c.trustDomainFromString(b.trustDomain);
    if td.None? then Err(BadTrustDomain)
    else match CertificatesFrom(c, b.x509Authorities)
      case Err(e) => Err(e)
      case Ok(certs) =>
        match JwtsFrom(c, b.jwtAuthorities)
        case Err(e) => Err(e)
        case Ok(keys) => Ok(Bundle(
          td.value, certs, keys,
          if b.refreshHint != 0 then Some(ToNanoseconds(b.refreshHint)) else None,
          if b.sequenceNumber != 0 then Some(b.sequenceNumber) else None))
  }

  predicate Parses<Cert, Key>(c: Codec<Cert, Key>, k: JwtKey) {
    k.keyId != "" && c.parsePublicKey(k.publicKey).Some?
  }

  /** Every part of the API bundle can be read. */
  ghost predicate Acceptable<Cert, Key>(c: Codec<Cert, Key>, b: ApiBundle) {
    && c.trustDomainFromString(b.trustDomain).Some?
    && (forall x | x in b.x509Authorities :: c.parseCertificate(x).Some?)
    && (forall k | k in b.jwtAuthorities :: Parses(c, k))
  }

  /** The hint in nanoseconds, up to a multiple of 2^64: the true product exactly within the range. */
  ghost predicate IsWrappedHint(hint: Int64, duration: Option<Int64>) {
    && duration.Some?
    && (hint * SECOND - duration.value) % 0x1_0000_0000_0000_0000 == 0
    && (duration.value == hint * SECOND <==> -9223372036 <= hint <= 9223372036)
  }

  /** Part by part what the bundle holds; of keys with one id it holds the last, and zero stands for none. */
  ghost predicate IsBundleOf<Cert, Key>(c: Codec<Cert, Key>, b: ApiBundle, out: Bundle<Cert, Key>) {
    && c.trustDomainFromString(b.trustDomain) == Some(out.trustDomain)
    && |out.x509Authorities| == |b.x509Authorities|
    && (forall i | 0 <= i < |b.x509Authorities| ::
          c.parseCertificate(b.x509Authorities[i]) == Some(out.x509Authorities[i]))
    && (forall id :: id in out.jwtAuthorities <==> LastKey(b.jwtAuthorities, id).Some?)
    && (forall id | id in out.jwtAuthorities ::
          c.parsePublicKey(LastKey(b.jwtAuthorities, id).value.publicKey) == Some(out.jwtAuthorities[id]))
    && (if b.refreshHint == 0 then out.refreshHint.None? else IsWrappedHint(b.refreshHint, out.refreshHint))
    && out.sequenceNumber == if b.sequenceNumber == 0 then None else Some(b.sequenceNumber)
  }

  lemma HintIsWrapped(hint: Int64)
    ensures IsWrappedHint(hint, Some(ToNanoseconds(hint)))
  {
  }

  /** The error of the first key that cannot be read. */
  ghost predicate FirstBadKey<Cert, Key>(c: Codec<Cert, Key>, ins: seq<JwtKey>, e: Error) {
    exists i | 0 <= i < |ins| ::
      && !Parses(c, ins[i]) && e == (if ins[i].keyId == "" then MissingKeyId else BadPublicKey)
      && forall j | 0 <= j < i :: Parses(c, ins[j])
  }

  lemma {:induction false} JwtsError<Cert, Key>(c: Codec<Cert, Key>, ins: seq<JwtKey>)
    ensures JwtsFrom(c, ins).Err? ==> FirstBadKey(c, ins, JwtsFrom(c, ins).error)
    decreases |ins|
  {
    if ins != [] && JwtsFrom(c, ins).Err? {
      var n, e := |ins| - 1, JwtsFrom(c, ins).error;
      JwtsError(c, ins[..n]);
      if JwtsFrom(c, ins[..n]).Err? {
        var i :| 0 <= i < n && !Parses(c, ins[..n][i]) &&
          e == (if ins[..n][i].keyId == "" then MissingKeyId else BadPublicKey) &&
          forall j | 0 <= j < i :: Parses(c, ins[..n][j]);
        assert ins[..n][i] == ins[i];
        assert forall j | 0 <= j < i :: ins[..n][j] == ins[j];
      } else {
        JwtsExact(c, ins[..n]);
        assert forall j | 0 <= j < n :: ins[j] in ins[..n];
      }
    }
  }

  lemma {:induction false} CertificatesError<Cert, Key>(c: Codec<Cert, Key>, ins: seq<Bytes>)
    ensures CertificatesFrom(c, ins).Err? ==> CertificatesFrom(c, ins).error == BadCertificate
    decreases |ins|
  {
    if ins == [] {
    } else {
      CertificatesError(c, ins[..|ins| - 1]);
    }
  }

  ghost predicate BundleError<Cert, Key>(c: Codec<Cert, Key>, b: ApiBundle, e: Error) {
    if c.trustDomainFromString(b.trustDomain).None? then e == BadTrustDomain
    else if exists x | x in b.x509Authorities :: c.parseCertificate(x).None? then e == BadCertificate
    else FirstBadKey(c, b.jwtAuthorities, e)
  }

  /**
    A bundle is accepted exactly when every part can be read, and its parts are then what was read. The first thing
    wrong is reported: the trust domain, then a certificate, then the first bad key.
   */
  lemma BundleFromExact<Cert, Key>(c: Codec<Cert, Key>, b: ApiBundle)
    ensures BundleFrom(c, b).Ok? <==> Acceptable(c, b)
    ensures BundleFrom(c, b).Ok? ==> IsBundleOf(c, b, BundleFrom(c, b).value)
    ensures BundleFrom(c, b).Err? ==> BundleError(c, b, BundleFrom(c, b).error)
  {
    CertificatesExact(c, b.x509Authorities);
    CertificatesError(c, b.x509Authorities);
    JwtsExact(c, b.jwtAuthorities);
    JwtsError(c, b.jwtAuthorities);
    HintIsWrapped(b.refreshHint);
    hide IsWrappedHint;
    hide ToNanoseconds;
    hide CertificatesFrom;
    hide JwtsFrom;
    hide FirstBadKey;
  }

  /** A missing bundle converts to a missing bundle, any other exactly when it is acceptable. */
  method BundleFromAPI<Cert, Key>(c: Codec<Cert, Key>, b: Option<ApiBundle>)
    returns (res: Result<Option<Bundle<Cert, Key>>, Error>)
    ensures res.Ok? <==> b.None? || Acceptable(c, b.value)
    ensures res.Ok? ==> (res.value.Some? <==> b.Some?)
    ensures res.Ok? && b.Some? ==> IsBundleOf(c, b.value, res.value.value)
    ensures res.Err? ==> BundleError(c, b.value, res.error)
    ensures b.Some? ==>
      var r := BundleFrom(c, b.value); res == if r.Ok? then Ok(Some(r.value)) else Err(r.error)
  {
    if b.None? {
      return Ok(None);
    }
    BundleFromExact(c, b.value);
    hide Acceptable;
    hide IsBundleOf;
    hide BundleError;
    var td := c.trustDomainFromString(b.value.trustDomain);
    if td.None? {
      return Err(BadTrustDomain);
    }
    var certs := X509AuthoritiesFromAPI(c, b.value.x509Authorities);
    if certs.Err? {
      return Err(certs.error);
    }
    var keys := JwtAuthoritiesFromAPI(c, b.value.jwtAuthorities);
    if keys.Err? {
      return Err(keys.error);
    }
    var out := Bundle(td.value, certs.value, keys.value, None, None);
    if b.value.sequenceNumber != 0 {
      out := out.(sequenceNumber := Some(b.value.sequenceNumber));
    }
    if b.value.refreshHint != 0 {
      out := out.(refreshHint := Some(ToNanoseconds(b.value.refreshHint)));
    }
    return Ok(Some(out));
  }

  /** What bundleToAPI makes of a bundle; the order of the JWT keys is left open. */
  ghost predicate IsApiOf<Cert, Key>(c: Codec<Cert, Key>, b: Bundle<Cert, Key>, out: ApiBundle) {
    && out.trustDomain == b.trustDomain
    && |out.x509Authorities| == |b.x509Authorities|
    && (forall i | 0 <= i < |b.x509Authorities| :: out.x509Authorities[i] == c.raw(b.x509Authorities[i]))
    && KeysOf(c, b.jwtAuthorities, out.jwtAuthorities)
    && out.sequenceNumber == (if b.sequenceNumber.Some? then b.sequenceNumber.value else 0)
    && out.refreshHint == (if b.refreshHint.Some? then ToSeconds(b.refreshHint.value) else 0)
  }

  ghost predicate Convertible<Cert, Key>(c: Codec<Cert, Key>, b: Bundle<Cert, Key>) {
    && b.trustDomain != ""
    && (forall i | 0 <= i < |b.x509Authorities| :: c.raw(b.x509Authorities[i]) != [])
    && (forall id | id in b.jwtAuthorities :: Marshals(c, id, b.jwtAuthorities[id]))
  }

  method BundleToAPI<Cert, Key>(c: Codec<Cert, Key>, b: Bundle<Cert, Key>) returns (res: Result<ApiBundle, Error>)
    ensures res.Ok? <==> Convertible(c, b)
    ensures res.Ok? ==> IsApiOf(c, b, res.value)
    ensures res == Err(MissingTrustDomain) <==> b.trustDomain == ""
    ensures res == Err(MissingRawData) <==>
      b.trustDomain != "" && exists i | 0 <= i < |b.x509Authorities| :: c.raw(b.x509Authorities[i]) == []
    ensures res.Err? && res.error !in {MissingTrustDomain, MissingRawData} ==> BadKey(c, b.jwtAuthorities, res.error)
  {
    if b.trustDomain == "" {
      return Err(MissingTrustDomain);
    }
    var certs := X509AuthoritiesToAPI(c, b.x509Authorities);
    if certs.Err? {
      return Err(certs.error);
    }
    var keys := JwtAuthoritiesToAPI(c, b.jwtAuthorities);
    if keys.Err? {
      return Err(keys.error);
    }
    var sequenceNumber: Uint64 := if b.sequenceNumber.Some? then b.sequenceNumber.value else 0;
    var refreshHint: Int64 := if b.refreshHint.Some? then b.refreshHint.value else 0;
    return Ok(ApiBundle(b.trustDomain, certs.value, keys.value, ToSeconds(refreshHint), sequenceNumber));
  }

  /** One key per id of the original list: the last with that id, without its expiry. */
  ghost predicate LastKeys(ins: seq<JwtKey>, outs: seq<JwtKey>) {
    && (forall i, j | 0 <= i < j < |outs| :: outs[i].keyId != outs[j].keyId)
    && (forall k | k in outs :: LastKey(ins, k.keyId).Some? && k == LastKey(ins, k.keyId).value.(expiresAt := 0))
    && (forall k | k in ins :: HasKey(outs, k.keyId))
  }

  lemma {:induction false} LastKeyHasId(ins: seq<JwtKey>, id: string)
    ensures LastKey(ins, id).Some? ==> LastKey(ins, id).value.keyId == id && LastKey(ins, id).value in ins
    decreases |ins|
  {
    if ins == [] {
    } else {
      LastKeyHasId(ins[..|ins| - 1], id);
    }
  }

  lemma {:induction false} LastKeyExists(ins: seq<JwtKey>, k: JwtKey)
    requires k in ins
    ensures LastKey(ins, k.keyId).Some?
    decreases |ins|
  {
    var n := |ins| - 1;
    if ins[n].keyId != k.keyId {
      assert ins == ins[..n] + [ins[n]];
      LastKeyExists(ins[..n], k);
    }
  }

  lemma KeysRoundTrip<Cert, Key>(c: Codec<Cert, Key>, ins: seq<JwtKey>, outs: seq<JwtKey>)
    requires forall k | k in ins :: KeepsKey(c, k)
    requires JwtsFrom(c, ins).Ok? && KeysOf(c, JwtsFrom(c, ins).value, outs)
    ensures LastKeys(ins, outs)
  {
    JwtsExact(c, ins);
    var m := JwtsFrom(c, ins).value;
    forall k | k in outs
      ensures LastKey(ins, k.keyId).Some? && k == LastKey(ins, k.keyId).value.(expiresAt := 0)
    {
      LastKeyHasId(ins, k.keyId);
      assert k.keyId in m;
      assert c.parsePublicKey(LastKey(ins, k.keyId).value.publicKey) == Some(m[k.keyId]);
      assert KeepsKey(c, LastKey(ins, k.keyId).value);
    }
    forall k | k in ins ensures HasKey(outs, k.keyId) {
      LastKeyExists(ins, k);
      assert k.keyId in m;
    }
  }

  /** A bundle that was converted in and out keeps what LastKeys and the hint's range allow. */
  lemma BundleRoundTrip<Cert, Key>(c: Codec<Cert, Key>, b: ApiBundle, out: ApiBundle)
    requires PrintsBack(c, b) && BundleFrom(c, b).Ok? && IsApiOf(c, BundleFrom(c, b).value, out)
    ensures Some(out.trustDomain) == c.trustDomainFromString(b.trustDomain)
    ensures out.x509Authorities == b.x509Authorities
    ensures LastKeys(b.jwtAuthorities, out.jwtAuthorities)
    ensures out.sequenceNumber == b.sequenceNumber
    ensures out.refreshHint == b.refreshHint <==> -9223372036 <= b.refreshHint <= 9223372036
  {
    CertificatesExact(c, b.x509Authorities);
    HintRoundTrip(b.refreshHint);
    KeysRoundTrip(c, b.jwtAuthorities, out.jwtAuthorities);
    forall i | 0 <= i < |b.x509Authorities| ensures out.x509Authorities[i] == b.x509Authorities[i] {
      assert KeepsRaw(c, b.x509Authorities[i]);
      assert c.parseCertificate(b.x509Authorities[i]).Some?;
    }
  }

  /** The key kept for each id can be marshalled. */
  ghost predicate LastKeysMarshal<Cert, Key>(c: Codec<Cert, Key>, ins: seq<JwtKey>) {
    forall id | LastKey(ins, id).Some? :: CanMarshal(c, LastKey(ins, id).value)
  }

  /** A bundle that came from the API can be converted back exactly when each key it keeps can be marshalled. */
  lemma ConvertedIsConvertible<Cert, Key>(c: Codec<Cert, Key>, b: ApiBundle)
    requires PrintsBack(c, b) && BundleFrom(c, b).Ok?
    ensures Convertible(c, BundleFrom(c, b).value) <==> LastKeysMarshal(c, b.jwtAuthorities)
  {
    CertificatesExact(c, b.x509Authorities);
    JwtsExact(c, b.jwtAuthorities);
    var r := BundleFrom(c, b).value;
    forall i | 0 <= i < |r.x509Authorities| ensures c.raw(r.x509Authorities[i]) != [] {
      assert KeepsRaw(c, b.x509Authorities[i]);
      assert c.parseCertificate(b.x509Authorities[i]).Some?;
    }
    forall id
      ensures id in r.jwtAuthorities <==> LastKey(b.jwtAuthorities, id).Some?
      ensures id in r.jwtAuthorities ==>
        (Marshals(c, id, r.jwtAuthorities[id]) <==> CanMarshal(c, LastKey(b.jwtAuthorities, id).value))
    {
    }
  }

  // ----- Federation relationships

  datatype ApiProfile =
    | NoProfile
    | HttpsWeb(present: bool)
    | HttpsSpiffe(endpointSpiffeId: Option<string>)
    | OtherProfile

  /** ForeignProfile: a profile of a type this code does not know. */
  datatype Profile = WebProfile | SpiffeProfile(endpointSpiffeId: string) | ForeignProfile

  datatype ApiFederation = ApiFederation(
    trustDomain: string, bundleEndpointUrl: string, profile: ApiProfile, trustDomainBundle: Option<ApiBundle>)

  datatype Federation<Cert, Key> = Federation(
    trustDomain: string, bundleEndpointUrl: string, profile: Profile, trustDomainBundle: Option<Bundle<Cert, Key>>)

  function ProfileFrom<Cert, Key>(c: Codec<Cert, Key>, p: ApiProfile): Result<Profile, Error> {
    match p
    case HttpsWeb(present) => if present then Ok(WebProfile) else Err(MissingProfileData)
    case HttpsSpiffe(None) => Err(MissingProfileData)
    case HttpsSpiffe(Some(id)) =>
      var parsed := c.spiffeIdFromString(id);
      if parsed.None? then Err(BadEndpointId) else Ok(SpiffeProfile(parsed.value))
    case NoProfile => Err(MissingProfile)
    case OtherProfile => Err(UnknownProfile)
  }

  function ProfileTo(p: Profile): ApiProfile {
    match p
    case WebProfile => HttpsWeb(true)
    case SpiffeProfile(id) => HttpsSpiffe(Some(id))
    case ForeignProfile => OtherProfile
  }

  /** The profile is of a known kind, with its data, and an endpoint id it names can be read. */
  predicate AcceptableProfile<Cert, Key>(c: Codec<Cert, Key>, p: ApiProfile) {
    || p == HttpsWeb(true)
    || (p.HttpsSpiffe? && p.endpointSpiffeId.Some? && c.spiffeIdFromString(p.endpointSpiffeId.value).Some?)
  }

  ghost predicate AcceptableFederation<Cert, Key>(c: Codec<Cert, Key>, f: ApiFederation) {
    && c.trustDomainFromString(f.trustDomain).Some? && c.validUrl(f.bundleEndpointUrl)
    && (f.trustDomainBundle.Some? ==> Acceptable(c, f.trustDomainBundle.value))
    && AcceptableProfile(c, f.profile)
  }

  ghost predicate IsFederationOf<Cert, Key>(c: Codec<Cert, Key>, f: ApiFederation, out: Federation<Cert, Key>) {
    && c.trustDomainFromString(f.trustDomain) == Some(out.trustDomain)
    && out.bundleEndpointUrl == f.bundleEndpointUrl
    && (out.profile.WebProfile? <==> f.profile == HttpsWeb(true))
    && (f.profile.HttpsSpiffe? ==>
          && f.profile.endpointSpiffeId.Some? && out.profile.SpiffeProfile?
          && c.spiffeIdFromString(f.profile.endpointSpiffeId.value) == Some(out.profile.endpointSpiffeId))
    && (out.trustDomainBundle.Some? <==> f.trustDomainBundle.Some?)
    && (f.trustDomainBundle.Some? ==> IsBundleOf(c, f.trustDomainBundle.value, out.trustDomainBundle.value))
  }

  /** The first thing wrong is reported: the trust domain, the URL, the bundle, the profile. */
  ghost predicate FederationError<Cert, Key>(c: Codec<Cert, Key>, f: ApiFederation, e: Error) {
    if c.trustDomainFromString(f.trustDomain).None? then e == BadTrustDomain
    else if !c.validUrl(f.bundleEndpointUrl) then e == BadUrl
    else if f.trustDomainBundle.Some? && !Acceptable(c, f.trustDomainBundle.value) then
      BundleError(c, f.trustDomainBundle.value, e)
    else if f.profile.HttpsSpiffe? && f.profile.endpointSpiffeId.Some? then e == BadEndpointId
    else if f.profile.HttpsSpiffe? || f.profile.HttpsWeb? then e == MissingProfileData
    else e == if f.profile.NoProfile? then MissingProfile else UnknownProfile
  }

  function FederationFrom<Cert, Key>(c: Codec<Cert, Key>, f: ApiFederation): Result<Federation<Cert, Key>, Error> {
    var td := c.trustDomainFromString(f.trustDomain);
    if td.None? then Err(BadTrustDomain)
    else if !c.validUrl(f.bundleEndpointUrl) then Err(BadUrl)
    else if f.trustDomainBundle.Some? && BundleFrom(c, f.trustDomainBundle.value).Err? then
      Err(BundleFrom(c, f.trustDomainBundle.value).error)
    else match ProfileFrom(c, f.profile)
      case Err(e) => Err(e)
      case Ok(profile) =>
        var bundle := if f.trustDomainBundle.None? then None else Some(BundleFrom(c, f.trustDomainBundle.value).value);
        Ok(Federation(td.value, f.bundleEndpointUrl, profile, bundle))
  }

  /** A relationship is accepted exactly when all its parts are, and keeps them. */
  lemma FederationFromExact<Cert, Key>(c: Codec<Cert, Key>, f: ApiFederation)
    ensures FederationFrom(c, f).Ok? <==> AcceptableFederation(c, f)
    ensures FederationFrom(c, f).Ok? ==> IsFederationOf(c, f, FederationFrom(c, f).value)
    ensures FederationFrom(c, f).Err? ==> FederationError(c, f, FederationFrom(c, f).error)
  {
    if f.trustDomainBundle.Some? {
      BundleFromExact(c, f.trustDomainBundle.value);
    }
    hide BundleFrom;
    hide Acceptable;
    hide IsBundleOf;
    hide BundleError;
  }

  method FederationRelationshipFromAPI<Cert, Key>(c: Codec<Cert, Key>, f: ApiFederation)
    returns (res: Result<Federation<Cert, Key>, Error>)
    ensures res.Ok? <==> AcceptableFederation(c, f)
    ensures res.Ok? ==> IsFederationOf(c, f, res.value)
    ensures res.Err? ==> FederationError(c, f, res.error)
    ensures res == FederationFrom(c, f)
  {
    FederationFromExact(c, f);
    hide AcceptableFederation;
    hide IsFederationOf;
    hide FederationError;
    var td := c.trustDomainFromString(f.trustDomain);
    if td.None? {
      return Err(BadTrustDomain);
    }
    if !c.validUrl(f.bundleEndpointUrl) {
      return Err(BadUrl);
    }
    var bundle := BundleFromAPI(c, f.trustDomainBundle);
    if bundle.Err? {
      return Err(bundle.error);
    }
    var profile := ProfileFrom(c, f.profile);
    if profile.Err? {
      return Err(profile.error);
    }
    return Ok(Federation(td.value, f.bundleEndpointUrl, profile.value, bundle.value));
  }

  ghost predicate IsApiFederationOf<Cert, Key>(c: Codec<Cert, Key>, f: Federation<Cert, Key>, out: ApiFederation) {
    && out.trustDomain == f.trustDomain && out.bundleEndpointUrl == f.bundleEndpointUrl
    && out.profile == ProfileTo(f.profile)
    && (out.trustDomainBundle.Some? <==> f.trustDomainBundle.Some?)
    && (f.trustDomainBundle.Some? ==> IsApiOf(c, f.trustDomainBundle.value, out.trustDomainBundle.value))
  }

  method FederationRelationshipToAPI<Cert, Key>(c: Codec<Cert, Key>, f: Federation<Cert, Key>)
    returns (res: Result<ApiFederation, Error>)
    ensures res.Ok? <==>
      && f.trustDomain != "" && c.validUrl(f.bundleEndpointUrl) && !f.profile.ForeignProfile?
      && (f.trustDomainBundle.Some? ==> Convertible(c, f.trustDomainBundle.value))
    ensures res.Ok? ==> IsApiFederationOf(c, f, res.value)
    ensures f.trustDomain == "" ==> res == Err(MissingTrustDomain)
    ensures res == Err(BadUrl) <==> f.trustDomain != "" && !c.validUrl(f.bundleEndpointUrl)
    ensures res == Err(UnknownProfile) <==>
      && f.trustDomain != "" && c.validUrl(f.bundleEndpointUrl) && f.profile.ForeignProfile?
      && (f.trustDomainBundle.Some? ==> Convertible(c, f.trustDomainBundle.value))
  {
    if f.trustDomain == "" {
      return Err(MissingTrustDomain);
    }
    if !c.validUrl(f.bundleEndpointUrl) {
      return Err(BadUrl);
    }
    var out := ApiFederation(f.trustDomain, f.bundleEndpointUrl, NoProfile, None);
    if f.trustDomainBundle.Some? {
      var bundle := BundleToAPI(c, f.trustDomainBundle.value);
      if bundle.Err? {
        return Err(bundle.error);
      }
      out := out.(trustDomainBundle := Some(bundle.value));
    }
    match f.profile {
      case WebProfile => out := out.(profile := HttpsWeb(true));
      case SpiffeProfile(id) => out := out.(profile := HttpsSpiffe(Some(id)));
      case ForeignProfile => return Err(UnknownProfile);
    }
    return Ok(out);
  }

  /** The same assumption for the data of one relationship. */
  ghost predicate FederationPrintsBack<Cert, Key>(c: Codec<Cert, Key>, f: ApiFederation) {
    && NamesTrustDomain(c, f.trustDomain)
    && (f.trustDomainBundle.Some? ==> PrintsBack(c, f.trustDomainBundle.value))
    && (f.profile.HttpsSpiffe? && f.profile.endpointSpiffeId.Some? ==>
          c.spiffeIdFromString(f.profile.endpointSpiffeId.value) in {None, f.profile.endpointSpiffeId})
  }

  /** A relationship accepted from the API can be converted back exactly when its bundle can. */
  lemma AcceptedIsConvertible<Cert, Key>(c: Codec<Cert, Key>, f: ApiFederation)
    requires FederationPrintsBack(c, f) && FederationFrom(c, f).Ok?
    ensures var r := FederationFrom(c, f).value;
      && r.trustDomain != "" && c.validUrl(r.bundleEndpointUrl) && !r.profile.ForeignProfile?
      && (f.trustDomainBundle.Some? ==>
            (Convertible(c, r.trustDomainBundle.value) <==>
             LastKeysMarshal(c, f.trustDomainBundle.value.jwtAuthorities)))
  {
    if f.trustDomainBundle.Some? {
      ConvertedIsConvertible(c, f.trustDomainBundle.value);
    }
  }

  /** A relationship from the API converts back to itself, up to trust domain names and its bundle's keys and hint. */
  lemma FederationRoundTrip<Cert, Key>(c: Codec<Cert, Key>, f: ApiFederation, out: ApiFederation)
    requires FederationPrintsBack(c, f) && FederationFrom(c, f).Ok?
    requires IsApiFederationOf(c, FederationFrom(c, f).value, out)
    ensures Some(out.trustDomain) == c.trustDomainFromString(f.trustDomain)
    ensures out.bundleEndpointUrl == f.bundleEndpointUrl && out.profile == f.profile
    ensures out.trustDomainBundle.Some? <==> f.trustDomainBundle.Some?
    ensures f.trustDomainBundle.Some? ==>
      var before, after := f.trustDomainBundle.value, out.trustDomainBundle.value;
      && Some(after.trustDomain) == c.trustDomainFromString(before.trustDomain)
      && after.x509Authorities == before.x509Authorities
      && LastKeys(before.jwtAuthorities, after.jwtAuthorities)
      && after.sequenceNumber == before.sequenceNumber
      && (after.refreshHint == before.refreshHint <==> -9223372036 <= before.refreshHint <= 9223372036)
  {
    if f.trustDomainBundle.Some? {
      BundleRoundTrip(c, f.trustDomainBundle.value, out.trustDomainBundle.value);
    }
  }
}
