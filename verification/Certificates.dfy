/** Certificates as the path builder sees them, and everything outside this model
    (encodings, cryptography, random numbers) as one fixed environment.  Its `web` is
    what the servers say if they always say the same; a `Client` may face others. */
module Certificates {
  import opened Basics
  import opened Http

  type Name = seq<byte>

  datatype BasicConstraints = BasicConstraints(present: bool, ca: bool, critical: bool, pathLen: Option<nat>)

  /** The strictly parsed extension facts that path policy depends on. */
  datatype Profile = Profile(constraints: BasicConstraints, keyCertSign: bool,
                             extendedKeyUsage: bool, nameConstraints: bool)

  /** `profile` is `None` when strict parsing of the extensions fails. */
  datatype Extensions = Extensions(profile: Option<Profile>, crlSign: bool,
                                   caIssuers: seq<Uri>, ocsp: seq<Uri>, crls: seq<Uri>)

  datatype Cert = Cert(raw: Der, subject: Name, issuer: Name, notBefore: int, notAfter: int,
                       extensions: Option<Extensions>)

  datatype NoncePolicy = RequireEcho | AllowMissingEcho

  datatype Verdict = SaysGood | SaysRevoked | Unusable

  datatype Env = Env(
    web: Web,
    parse: Der -> Option<Cert>,
    signedBy: (Cert, Cert) -> bool,
    decodeCertificate: seq<byte> -> Option<Der>,
    drawNonce: (Cert, Uri) -> Option<nat>,
    ocspRequest: (Cert, Cert, nat) -> Request,
    judgeOcsp: (NoncePolicy, seq<byte>, Cert, Cert, nat, int) -> Verdict,
    judgeCrl: (seq<byte>, Cert, Cert, int) -> Verdict)

  datatype MaterialError =
    | NoChain | NoTrustAnchor | BadCertificate | InvalidIssuer | NoIssuer
    | ChainCycle | ChainTooDeep | Rng | Revocation | Revoked

  datatype StatusEvidence = Ocsp(der: Der) | Crl(der: Der)

  const MAX_DEPTH: nat := 8
  const MAX_CERTIFICATE_ADDRESSES: nat := 3

  function ProfileOf(c: Cert): Option<Profile> {
    match c.extensions
    case None => Some(Profile(BasicConstraints(false, false, false, None), false, false, false))
    case Some(e) => e.profile
  }

  predicate TimeOk(c: Cert, t: int) {
    c.notBefore <= t <= c.notAfter
  }

  /** Extension policy for every certificate that is not an approved anchor. */
  predicate PolicyOk(p: Profile) {
    !p.nameConstraints && !(p.constraints.ca && p.extendedKeyUsage)
  }

  function NonAnchorProfile(c: Cert): Option<Profile> {
    match ProfileOf(c)
    case None => None
    case Some(p) => if PolicyOk(p) then Some(p) else None
  }

  predicate WithinPathLength(pathLen: Option<nat>, subordinates: nat) {
    pathLen.Some? ==> subordinates <= pathLen.value
  }

  predicate IssuingOk(issuer: Cert, t: int, subordinates: nat) {
    && TimeOk(issuer, t)
    && NonAnchorProfile(issuer).Some?
    && var p := NonAnchorProfile(issuer).value;
       && p.constraints.present && p.constraints.ca && p.constraints.critical
       && WithinPathLength(p.constraints.pathLen, subordinates)
       && p.keyCertSign
  }

  /** One child-to-issuer link; every way it can fail is the same error kind. */
  predicate LinkOk(env: Env, subject: Cert, issuer: Cert, t: int, subordinates: nat, issuerIsAnchor: bool) {
    && subject.issuer == issuer.subject
    && (if issuerIsAnchor then TimeOk(issuer, t) else IssuingOk(issuer, t, subordinates))
    && env.signedBy(subject, issuer)
  }

  function Bounded(addresses: seq<Uri>): seq<Uri> {
    var distinct := MergeUnique([], addresses);
    if |distinct| <= MAX_CERTIFICATE_ADDRESSES then distinct else distinct[..MAX_CERTIFICATE_ADDRESSES]
  }

  /** The first three different addresses of a list, in the order they first occur. */
  ghost predicate FirstThree(addresses: seq<Uri>, some: seq<Uri>) {
    && |some| <= 3 && Distinct(some) && InFirstOrder(addresses, some)
    && forall u :: u in addresses && u !in some ==>
         |some| == 3 && forall a :: 0 <= a < 3 ==> OccursBefore(addresses, some[a], u)
  }

  lemma BoundedIsFirstThree(addresses: seq<Uri>)
    ensures FirstThree(addresses, Bounded(addresses))
  {
    var distinct, some := MergeUnique([], addresses), Bounded(addresses);
    MergeUniqueIsUnion([], addresses);
    MergedInFirstOrder(addresses);
    assert forall k :: 0 <= k < |some| ==> some[k] == distinct[k];
    forall u | u in addresses && u !in some
      ensures |some| == 3 && forall a :: 0 <= a < 3 ==> OccursBefore(addresses, some[a], u)
    {
      assert u in Elements(distinct);
      var b :| 0 <= b < |distinct| && distinct[b] == u;
      assert b >= |some|;
    }
  }

  /** The first three distinct addresses, in their original order. */
  method BoundedCertificateAddresses(addresses: seq<Uri>) returns (selected: seq<Uri>)
    ensures selected == Bounded(addresses) && FirstThree(addresses, selected)
    ensures Distinct(selected) && |selected| <= MAX_CERTIFICATE_ADDRESSES
  {
    BoundedIsFirstThree(addresses);
    MergeUniqueIsUnion([], addresses);
    selected := [];
    for i := 0 to |addresses|
      invariant selected == MergeUnique([], addresses[..i])
      invariant |selected| < MAX_CERTIFICATE_ADDRESSES
    {
      assert addresses[..i + 1] == addresses[..i] + [addresses[i]];
      MergeUniqueSnoc([], addresses[..i], addresses[i]);
      if addresses[i] in selected {
        continue;
      }
      selected := selected + [addresses[i]];
      if |selected| == MAX_CERTIFICATE_ADDRESSES {
        assert addresses == addresses[..i + 1] + addresses[i + 1..];
        MergeUniqueConcat([], addresses[..i + 1], addresses[i + 1..]);
        MergeUniqueIsUnion(selected, addresses[i + 1..]);
        return;
      }
    }
    assert addresses[..|addresses|] == addresses;
  }

  function FetchIssuer(env: Env, url: Uri): Option<Der> {
    match GetRun(env.web, CertificateMaterial, url).outcome
    case Ok(body) => env.decodeCertificate(body)
    case Err(_) => None
  }

  /** One issuer fetch: one request and at most three exchanges, whatever is served. */
  method DoFetchIssuer(env: Env, client: Client, url: Uri) returns (der: Option<Der>)
    modifies client
    ensures exists r, visited ::
              && Got(client.network, old(client.log), client.log, CertificateMaterial, url, r, visited)
              && der == if r.Ok? then env.decodeCertificate(r.value) else None
    ensures Steady(client.network, env.web) ==> der == FetchIssuer(env, url)
    ensures client.requests == old(client.requests) + 1
    ensures |client.log| <= |old(client.log)| + 3
  {
    ghost var base := |client.log|;
    RedirectRun(Gets(client.network, base), GetPolicy(CertificateMaterial, client.network.join), url);
    var body := client.GetFor(url, CertificateMaterial);
    der := if body.Ok? then env.decodeCertificate(body.value) else None;
    if Steady(client.network, env.web) {
      SteadyGet(client.network, env.web, base, CertificateMaterial, url);
    }
  }
}
