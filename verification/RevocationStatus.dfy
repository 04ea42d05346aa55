/** Revocation evidence for one certificate: OCSP services first, then CRLs. */
module RevocationStatus {
  import opened Basics
  import opened Http
  import opened Certificates

  /** What trying one advertised endpoint established. */
  datatype Answer = NoNonce | Inconclusive | Good(evidence: StatusEvidence) | Bad

  predicate Decisive(a: Answer) {
    a.Good? || a.Bad?
  }

  function OcspAnswer(env: Env, policy: NoncePolicy, subject: Cert, issuer: Cert, t: int, url: Uri): Answer {
    match env.drawNonce(subject, url)
    case None => NoNonce
    case Some(nonce) =>
      match PostRun(env.web, env.ocspRequest(subject, issuer, nonce), CertificateMaterial, url).outcome
      case Err(_) => Inconclusive
      case Ok(body) =>
        match env.judgeOcsp(policy, body, subject, issuer, nonce, t)
        case SaysGood => Good(Ocsp(Der(body)))
        case SaysRevoked => Bad
        case Unusable => Inconclusive
  }

  function CrlAnswer(env: Env, subject: Cert, issuer: Cert, t: int, url: Uri): Answer {
    match GetRun(env.web, CertificateMaterial, url).outcome
    case Err(_) => Inconclusive
    case Ok(body) =>
      match env.judgeCrl(body, subject, issuer, t)
      case SaysGood => Good(Crl(Der(body)))
      case SaysRevoked => Bad
      case Unusable => Inconclusive
  }

  function OcspAnswers(env: Env, policy: NoncePolicy, subject: Cert, issuer: Cert, t: int, urls: seq<Uri>): seq<Answer> {
    seq(|urls|, i requires 0 <= i < |urls| => OcspAnswer(env, policy, subject, issuer, t, urls[i]))
  }

  function CrlAnswers(env: Env, subject: Cert, issuer: Cert, t: int, urls: seq<Uri>): seq<Answer> {
    seq(|urls|, i requires 0 <= i < |urls| => CrlAnswer(env, subject, issuer, t, urls[i]))
  }

  function BeforeNonceFailure(answers: seq<Answer>): seq<Answer> {
    if answers == [] || answers[0] == NoNonce then [] else [answers[0]] + BeforeNonceFailure(answers[1..])
  }

  predicate MayIssueCrls(issuer: Cert) {
    issuer.extensions.Some? && issuer.extensions.value.crlSign
  }

  /** The answers that count, in the order they are asked for. */
  function Consulted(env: Env, policy: NoncePolicy, subject: Cert, issuer: Cert, t: int): seq<Answer>
    requires subject.extensions.Some?
  {
    var e := subject.extensions.value;
    BeforeNonceFailure(OcspAnswers(env, policy, subject, issuer, t, Bounded(e.ocsp)))
    + if MayIssueCrls(issuer) then CrlAnswers(env, subject, issuer, t, Bounded(e.crls)) else []
  }

  function FirstDecisive(answers: seq<Answer>): Option<Answer> {
    if answers == [] then None
    else if Decisive(answers[0]) then Some(answers[0])
    else FirstDecisive(answers[1..])
  }

  /** The verdict of the first decisive endpoint; without one, the random-source
      failure if there was one, otherwise a plain revocation failure. */
  function Verdict(answers: seq<Answer>, randomFailure: bool): Result<StatusEvidence, MaterialError> {
    match FirstDecisive(answers)
    case Some(Good(evidence)) => Ok(evidence)
    case Some(_) => Err(Revoked)
    case None => if randomFailure then Err(Rng) else Err(Revocation)
  }

  function StatusOf(env: Env, policy: NoncePolicy, subject: Cert, issuer: Cert, t: int): Result<StatusEvidence, MaterialError> {
    if subject.extensions.None? then Err(Revocation)
    else
      Verdict(Consulted(env, policy, subject, issuer, t),
              NoNonce in OcspAnswers(env, policy, subject, issuer, t, Bounded(subject.extensions.value.ocsp)))
  }

  lemma {:induction false} FirstDecisiveIsFirst(answers: seq<Answer>)
    ensures FirstDecisive(answers).None? <==> forall i :: 0 <= i < |answers| ==> !Decisive(answers[i])
    ensures FirstDecisive(answers).Some? <==>
            exists i :: 0 <= i < |answers| && Decisive(answers[i]) && FirstDecisive(answers) == Some(answers[i])
                        && forall j :: 0 <= j < i ==> !Decisive(answers[j])
  {
    if answers != [] {
      var rest := answers[1..];
      FirstDecisiveIsFirst(rest);
      if Decisive(answers[0]) {
        assert 0 <= 0 < |answers| && FirstDecisive(answers) == Some(answers[0]);
      } else if FirstDecisive(rest).Some? {
        var k :| 0 <= k < |rest| && Decisive(rest[k]) && FirstDecisive(rest) == Some(rest[k])
                 && forall j :: 0 <= j < k ==> !Decisive(rest[j]);
        assert answers[k + 1] == rest[k];
        assert forall j :: 0 <= j < k + 1 ==> j == 0 || answers[j] == rest[j - 1];
      } else {
        assert forall i :: 0 < i < |answers| ==> answers[i] == rest[i - 1];
      }
    }
  }

  lemma {:induction false} FirstDecisiveConcat(a: seq<Answer>, b: seq<Answer>)
    ensures FirstDecisive(a + b) == if FirstDecisive(a).Some? then FirstDecisive(a) else FirstDecisive(b)
  {
    if a == [] {
      assert a + b == b;
    } else {
      assert (a + b)[1..] == a[1..] + b;
      FirstDecisiveConcat(a[1..], b);
    }
  }

  lemma {:induction false} BeforeNonceFailureSplit(a: seq<Answer>, x: Answer, b: seq<Answer>)
    requires NoNonce !in a
    ensures BeforeNonceFailure(a + [x] + b) == if x == NoNonce then a else a + [x] + BeforeNonceFailure(b)
  {
    var whole := a + [x] + b;
    if a == [] {
      assert whole[1..] == b;
    } else {
      assert whole[1..] == a[1..] + [x] + b;
      BeforeNonceFailureSplit(a[1..], x, b);
    }
  }

  lemma {:induction false} NoNonceMeansAll(a: seq<Answer>)
    requires NoNonce !in a
    ensures BeforeNonceFailure(a) == a
  {
    if a != [] {
      NoNonceMeansAll(a[1..]);
    }
  }

  // ----- the scans

  /** The service at `url` vouched for `subject` in answer to the nonce drawn for it. */
  ghost predicate GoodOcsp(env: Env, policy: NoncePolicy, subject: Cert, issuer: Cert, t: int, url: Uri, body: seq<byte>) {
    && env.drawNonce(subject, url).Some?
    && env.judgeOcsp(policy, body, subject, issuer, env.drawNonce(subject, url).value, t) == SaysGood
  }

  /** Evidence that was judged good, whoever served it. */
  ghost predicate Authentic(env: Env, policy: NoncePolicy, subject: Cert, issuer: Cert, t: int, evidence: StatusEvidence) {
    match evidence
    case Ocsp(der) => exists url :: GoodOcsp(env, policy, subject, issuer, t, url, der.octets)
    case Crl(der) => MayIssueCrls(issuer) && env.judgeCrl(der.octets, subject, issuer, t) == SaysGood
  }

  /** What a service's body, if one came back, makes of the nonce it answers. */
  ghost predicate JudgedOcsp(env: Env, policy: NoncePolicy, subject: Cert, issuer: Cert, t: int, nonce: nat,
                             got: Result<seq<byte>, HttpError>, a: Answer)
  {
    if got.Err? then a == Inconclusive
    else
      match env.judgeOcsp(policy, got.value, subject, issuer, nonce, t)
      case SaysGood => a == Good(Ocsp(Der(got.value)))
      case SaysRevoked => a == Bad
      case Unusable => a == Inconclusive
  }

  ghost predicate JudgedCrl(env: Env, subject: Cert, issuer: Cert, t: int, got: Result<seq<byte>, HttpError>, a: Answer) {
    if got.Err? then a == Inconclusive
    else
      match env.judgeCrl(got.value, subject, issuer, t)
      case SaysGood => a == Good(Crl(Der(got.value)))
      case SaysRevoked => a == Bad
      case Unusable => a == Inconclusive
  }

  /** Try one OCSP service. */
  method AskOcsp(env: Env, client: Client, policy: NoncePolicy, subject: Cert, issuer: Cert, t: int, url: Uri)
      returns (a: Answer)
    modifies client
    ensures a == NoNonce <==> env.drawNonce(subject, url).None?
    ensures a == NoNonce ==> client.log == old(client.log)
    ensures a != NoNonce ==>
              var nonce := env.drawNonce(subject, url).value;
              exists got, visited ::
                && Posted(client.network, old(client.log), client.log, env.ocspRequest(subject, issuer, nonce), CertificateMaterial,
                          url, got, visited)
                && JudgedOcsp(env, policy, subject, issuer, t, nonce, got, a)
    ensures Steady(client.network, env.web) ==> a == OcspAnswer(env, policy, subject, issuer, t, url)
    ensures a.Good? ==> Authentic(env, policy, subject, issuer, t, a.evidence)
    ensures client.requests <= old(client.requests) + 1 && |client.log| <= |old(client.log)| + 3
  {
    var nonce := env.drawNonce(subject, url);
    if nonce.None? {
      return NoNonce;
    }
    var request := env.ocspRequest(subject, issuer, nonce.value);
    ghost var base := |client.log|;
    RedirectRun(Posts(client.network, base, request), PostPolicy(CertificateMaterial, client.network.join), url);
    var body := client.PostFor(url, request, CertificateMaterial);
    if Steady(client.network, env.web) {
      SteadyPost(client.network, env.web, base, request, CertificateMaterial, url);
    }
    if body.Err? {
      return Inconclusive;
    }
    match env.judgeOcsp(policy, body.value, subject, issuer, nonce.value, t)
    case SaysGood =>
      assert GoodOcsp(env, policy, subject, issuer, t, url, body.value);
      a := Good(Ocsp(Der(body.value)));
    case SaysRevoked => a := Bad;
    case Unusable => a := Inconclusive;
  }

  /** Try one CRL. */
  method AskCrl(env: Env, client: Client, subject: Cert, issuer: Cert, t: int, url: Uri) returns (a: Answer)
    requires MayIssueCrls(issuer)
    modifies client
    ensures exists got, visited ::
              && Got(client.network, old(client.log), client.log, CertificateMaterial, url, got, visited)
              && JudgedCrl(env, subject, issuer, t, got, a)
    ensures Steady(client.network, env.web) ==> a == CrlAnswer(env, subject, issuer, t, url)
    ensures a != NoNonce
    ensures a.Good? ==> a.evidence.Crl? && env.judgeCrl(a.evidence.der.octets, subject, issuer, t) == SaysGood
    ensures client.requests <= old(client.requests) + 1 && |client.log| <= |old(client.log)| + 3
  {
    ghost var base := |client.log|;
    RedirectRun(Gets(client.network, base), GetPolicy(CertificateMaterial, client.network.join), url);
    var body := client.GetFor(url, CertificateMaterial);
    if Steady(client.network, env.web) {
      SteadyGet(client.network, env.web, base, CertificateMaterial, url);
    }
    if body.Err? {
      return Inconclusive;
    }
    match env.judgeCrl(body.value, subject, issuer, t)
    case SaysGood => a := Good(Crl(Der(body.value)));
    case SaysRevoked => a := Bad;
    case Unusable => a := Inconclusive;
  }

  datatype OcspScan = OcspScan(response: Option<StatusEvidence>, randomFailure: bool)

  lemma FirstDecisiveHere(a: seq<Answer>, x: Answer, b: seq<Answer>)
    requires FirstDecisive(a).None?
    ensures FirstDecisive(a + [x] + b) == if Decisive(x) then Some(x) else FirstDecisive(b)
    ensures FirstDecisive(a + [x]) == if Decisive(x) then Some(x) else None
  {
    FirstDecisiveConcat(a, [x]);
    FirstDecisiveConcat(a + [x], b);
    assert [x][1..] == [];
  }

  lemma SplitAt<T>(s: seq<T>, i: nat)
    requires i < |s|
    ensures s == s[..i] + [s[i]] + s[i + 1..] && s[..i + 1] == s[..i] + [s[i]]
  {
  }

  lemma ScanHere(a: seq<Answer>, x: Answer, b: seq<Answer>)
    requires NoNonce !in a && FirstDecisive(a).None?
    ensures var first := FirstDecisive(BeforeNonceFailure(a + [x] + b));
            && (x == NoNonce ==> first.None?)
            && (Decisive(x) ==> first == Some(x))
            && (x == Inconclusive ==> FirstDecisive(a + [x]).None?)
  {
    BeforeNonceFailureSplit(a, x, b);
    FirstDecisiveHere(a, x, BeforeNonceFailure(b));
  }

  /** What the first `i` answers leave open, and what one more settles. */
  lemma ScanStep(answers: seq<Answer>, i: nat)
    requires i < |answers| && NoNonce !in answers[..i] && FirstDecisive(answers[..i]).None?
    ensures var first := FirstDecisive(BeforeNonceFailure(answers));
            && (answers[i] == NoNonce ==> first.None?)
            && (Decisive(answers[i]) ==> first == Some(answers[i]))
            && (answers[i] == Inconclusive ==> FirstDecisive(answers[..i + 1]).None?)
  {
    SplitAt(answers, i);
    ScanHere(answers[..i], answers[i], answers[i + 1..]);
  }

  lemma ListStep(answers: seq<Answer>, i: nat)
    requires i < |answers| && FirstDecisive(answers[..i]).None?
    ensures Decisive(answers[i]) ==> FirstDecisive(answers) == Some(answers[i])
    ensures !Decisive(answers[i]) ==> FirstDecisive(answers[..i + 1]).None?
  {
    SplitAt(answers, i);
    FirstDecisiveHere(answers[..i], answers[i], answers[i + 1..]);
  }

  method CollectOcspStatus(env: Env, client: Client, policy: NoncePolicy, subject: Cert, issuer: Cert, t: int)
      returns (r: Result<OcspScan, MaterialError>)
    requires subject.extensions.Some?
    modifies client
    ensures client.requests <= old(client.requests) + 3 && |client.log| <= |old(client.log)| + 9
    ensures r.Ok? && r.value.response.Some? ==> Authentic(env, policy, subject, issuer, t, r.value.response.value)
    ensures r.Err? ==> r.error == Revoked
    ensures Steady(client.network, env.web) ==>
              var answers := OcspAnswers(env, policy, subject, issuer, t, Bounded(subject.extensions.value.ocsp));
              var first := FirstDecisive(BeforeNonceFailure(answers));
              && (first.None? ==> r == Ok(OcspScan(None, NoNonce in answers)))
              && (first.Some? && first.value.Good? ==> r == Ok(OcspScan(Some(first.value.evidence), false)))
              && (first.Some? && first.value.Bad? ==> r == Err(Revoked))
  {
    var urls := BoundedCertificateAddresses(subject.extensions.value.ocsp);
    ghost var answers := OcspAnswers(env, policy, subject, issuer, t, urls);
    for i := 0 to |urls|
      invariant client.requests <= old(client.requests) + i && |client.log| <= |old(client.log)| + 3 * i
      invariant Steady(client.network, env.web) ==> NoNonce !in answers[..i] && FirstDecisive(answers[..i]).None?
    {
      var here := AskOcsp(env, client, policy, subject, issuer, t, urls[i]);
      if Steady(client.network, env.web) {
        ScanStep(answers, i);
      }
      match here
      case NoNonce => return Ok(OcspScan(None, true));
      case Inconclusive =>
      case Good(evidence) => return Ok(OcspScan(Some(evidence), false));
      case Bad => return Err(Revoked);
    }
    assert answers[..|urls|] == answers;
    if Steady(client.network, env.web) {
      NoNonceMeansAll(answers);
    }
    r := Ok(OcspScan(None, false));
  }

  method CollectCrlStatus(env: Env, client: Client, subject: Cert, issuer: Cert, t: int)
      returns (r: Result<Option<StatusEvidence>, MaterialError>)
    requires subject.extensions.Some?
    modifies client
    ensures client.requests <= old(client.requests) + 3 && |client.log| <= |old(client.log)| + 9
    ensures r.Ok? && r.value.Some? ==>
              && MayIssueCrls(issuer) && r.value.value.Crl?
              && env.judgeCrl(r.value.value.der.octets, subject, issuer, t) == SaysGood
    ensures r.Err? ==> r.error == Revoked
    ensures Steady(client.network, env.web) ==>
              var answers := if MayIssueCrls(issuer)
                             then CrlAnswers(env, subject, issuer, t, Bounded(subject.extensions.value.crls)) else [];
              var first := FirstDecisive(answers);
              && (first.None? ==> r == Ok(None))
              && (first.Some? && first.value.Good? ==> r == Ok(Some(first.value.evidence)))
              && (first.Some? && first.value.Bad? ==> r == Err(Revoked))
  {
    var urls := BoundedCertificateAddresses(subject.extensions.value.crls);
    ghost var answers := CrlAnswers(env, subject, issuer, t, urls);
    for i := 0 to |urls|
      invariant i > 0 ==> MayIssueCrls(issuer)
      invariant client.requests <= old(client.requests) + i && |client.log| <= |old(client.log)| + 3 * i
      invariant Steady(client.network, env.web) ==> FirstDecisive(answers[..i]).None?
    {
      if !MayIssueCrls(issuer) {
        return Ok(None);
      }
      var here := AskCrl(env, client, subject, issuer, t, urls[i]);
      if Steady(client.network, env.web) {
        ListStep(answers, i);
      }
      match here
      case Good(evidence) => return Ok(Some(evidence));
      case Bad => return Err(Revoked);
      case _ =>
    }
    assert answers[..|urls|] == answers;
    r := Ok(None);
  }

  /** One authenticated status answer for `subject`, within six requests: judged
      good whoever served it and, when servers are steady, the first verdict. */
  method CollectStatus(env: Env, client: Client, policy: NoncePolicy, subject: Cert, issuer: Cert, t: int)
      returns (r: Result<StatusEvidence, MaterialError>)
    modifies client
    ensures client.requests <= old(client.requests) + 6 && |client.log| <= |old(client.log)| + 18
    ensures r.Ok? ==> Authentic(env, policy, subject, issuer, t, r.value)
    ensures Steady(client.network, env.web) ==> r == StatusOf(env, policy, subject, issuer, t)
  {
    if subject.extensions.None? {
      return Err(Revocation);
    }
    var scan := CollectOcspStatus(env, client, policy, subject, issuer, t);
    FirstVerdictOfBoth(env, policy, subject, issuer, t);
    if scan.Err? {
      return Err(scan.error);
    }
    if scan.value.response.Some? {
      return Ok(scan.value.response.value);
    }
    var list := CollectCrlStatus(env, client, subject, issuer, t);
    if list.Err? {
      return Err(list.error);
    }
    if list.value.Some? {
      return Ok(list.value.value);
    }
    r := Err(if scan.value.randomFailure then Rng else Revocation);
  }

  /** The OCSP services decide if any of them does, otherwise the CRLs. */
  lemma FirstVerdictOfBoth(env: Env, policy: NoncePolicy, subject: Cert, issuer: Cert, t: int)
    requires subject.extensions.Some?
    ensures var e := subject.extensions.value;
            var services := FirstDecisive(BeforeNonceFailure(OcspAnswers(env, policy, subject, issuer, t, Bounded(e.ocsp))));
            var lists := FirstDecisive(if MayIssueCrls(issuer) then CrlAnswers(env, subject, issuer, t, Bounded(e.crls)) else []);
            && FirstDecisive(Consulted(env, policy, subject, issuer, t)) == (if services.Some? then services else lists)
            && (services.Some? ==> Decisive(services.value))
            && (lists.Some? ==> Decisive(lists.value))
  {
    var e := subject.extensions.value;
    var services := BeforeNonceFailure(OcspAnswers(env, policy, subject, issuer, t, Bounded(e.ocsp)));
    var lists := if MayIssueCrls(issuer) then CrlAnswers(env, subject, issuer, t, Bounded(e.crls)) else [];
    FirstDecisiveConcat(services, lists);
    FirstDecisiveIsFirst(services);
    FirstDecisiveIsFirst(lists);
  }

  ghost predicate FirstAt(a: seq<Answer>, i: nat)
    requires i < |a|
  {
    Decisive(a[i]) && forall j :: 0 <= j < i ==> !Decisive(a[j])
  }

  lemma FirstIsUnique(a: seq<Answer>, i: nat)
    requires i < |a| && FirstAt(a, i)
    ensures FirstDecisive(a) == Some(a[i])
  {
    FirstDecisiveIsFirst(a);
    var k :| 0 <= k < |a| && Decisive(a[k]) && FirstDecisive(a) == Some(a[k]) && forall j :: 0 <= j < k ==> !Decisive(a[j]);
    assert k == i;
  }

  lemma VerdictIsFirst(a: seq<Answer>, randomFailure: bool)
    ensures var r := Verdict(a, randomFailure);
            && (r.Ok? <==> exists i :: 0 <= i < |a| && FirstAt(a, i) && a[i].Good? && r == Ok(a[i].evidence))
            && (r == Err(Revoked) <==> exists i :: 0 <= i < |a| && FirstAt(a, i) && a[i] == Bad)
            && ((r == Err(Rng) || r == Err(Revocation)) <==> forall i :: 0 <= i < |a| ==> !Decisive(a[i]))
  {
    FirstDecisiveIsFirst(a);
    if FirstDecisive(a).Some? {
      var k :| 0 <= k < |a| && Decisive(a[k]) && FirstDecisive(a) == Some(a[k]) && forall j :: 0 <= j < k ==> !Decisive(a[j]);
      assert FirstAt(a, k);
    }
    forall i | 0 <= i < |a| && FirstAt(a, i)
      ensures FirstDecisive(a) == Some(a[i])
    {
      FirstIsUnique(a, i);
    }
  }

  /** Both directions, over the endpoints that count: success exactly when the
      first decisive one says good, refusal exactly when it says revoked, and some
      other error exactly when none is decisive. */
  lemma StatusIsFirstVerdict(env: Env, policy: NoncePolicy, subject: Cert, issuer: Cert, t: int)
    requires subject.extensions.Some?
    ensures var a := Consulted(env, policy, subject, issuer, t);
            var r := StatusOf(env, policy, subject, issuer, t);
            && (r.Ok? <==> exists i :: 0 <= i < |a| && FirstAt(a, i) && a[i].Good? && r == Ok(a[i].evidence))
            && (r == Err(Revoked) <==> exists i :: 0 <= i < |a| && FirstAt(a, i) && a[i] == Bad)
            && ((r == Err(Rng) || r == Err(Revocation)) <==> forall i :: 0 <= i < |a| ==> !Decisive(a[i]))
            && |a| <= 2 * MAX_CERTIFICATE_ADDRESSES
  {
    var services := OcspAnswers(env, policy, subject, issuer, t, Bounded(subject.extensions.value.ocsp));
    VerdictIsFirst(Consulted(env, policy, subject, issuer, t), NoNonce in services);
    BeforeNonceFailureShrinks(services);
  }

  lemma {:induction false} BeforeNonceFailureShrinks(a: seq<Answer>)
    ensures |BeforeNonceFailure(a)| <= |a| && BeforeNonceFailure(a) <= a
    ensures BeforeNonceFailure(a) == a || a[|BeforeNonceFailure(a)|] == NoNonce
  {
    if a != [] && a[0] != NoNonce {
      BeforeNonceFailureShrinks(a[1..]);
    }
  }

  // ----- the law over what the endpoints say

  /** The service at `url` answers the nonce drawn for it with a body judged `v`. */
  ghost predicate ServiceSays(env: Env, policy: NoncePolicy, subject: Cert, issuer: Cert, t: int, url: Uri, v: Verdict, body: seq<byte>) {
    && env.drawNonce(subject, url).Some?
    && var nonce := env.drawNonce(subject, url).value;
       && PostRun(env.web, env.ocspRequest(subject, issuer, nonce), CertificateMaterial, url).outcome == Ok(body)
       && env.judgeOcsp(policy, body, subject, issuer, nonce, t) == v
  }

  ghost predicate ListSays(env: Env, subject: Cert, issuer: Cert, t: int, url: Uri, v: Verdict, body: seq<byte>) {
    GetRun(env.web, CertificateMaterial, url).outcome == Ok(body) && env.judgeCrl(body, subject, issuer, t) == v
  }

  ghost predicate ServiceDecides(env: Env, policy: NoncePolicy, subject: Cert, issuer: Cert, t: int, url: Uri) {
    exists body :: ServiceSays(env, policy, subject, issuer, t, url, SaysGood, body)
                   || ServiceSays(env, policy, subject, issuer, t, url, SaysRevoked, body)
  }

  ghost predicate ListDecides(env: Env, subject: Cert, issuer: Cert, t: int, url: Uri) {
    exists body :: ListSays(env, subject, issuer, t, url, SaysGood, body) || ListSays(env, subject, issuer, t, url, SaysRevoked, body)
  }

  /** Service `i` decides: it says something final, none before it does, and a nonce
      could be drawn for each up to it. */
  ghost predicate DecidingService(env: Env, policy: NoncePolicy, subject: Cert, issuer: Cert, t: int, services: seq<Uri>, i: nat)
    requires i < |services|
  {
    && ServiceDecides(env, policy, subject, issuer, t, services[i])
    && (forall h :: 0 <= h < i ==> env.drawNonce(subject, services[h]).Some?)
    && (forall h :: 0 <= h < i ==> !ServiceDecides(env, policy, subject, issuer, t, services[h]))
  }

  ghost predicate DecidingList(env: Env, subject: Cert, issuer: Cert, t: int, lists: seq<Uri>, i: nat)
    requires i < |lists|
  {
    && ListDecides(env, subject, issuer, t, lists[i])
    && (forall h :: 0 <= h < i ==> !ListDecides(env, subject, issuer, t, lists[h]))
  }

  ghost predicate SomeServiceDecides(env: Env, policy: NoncePolicy, subject: Cert, issuer: Cert, t: int, services: seq<Uri>) {
    exists i :: 0 <= i < |services| && DecidingService(env, policy, subject, issuer, t, services, i)
  }

  /** The first endpoint that says something final, services before lists, says `v`,
      and `evidence` is its body.  Lists count only if the issuer may sign them. */
  ghost predicate FirstSays(env: Env, policy: NoncePolicy, subject: Cert, issuer: Cert, t: int, services: seq<Uri>, lists: seq<Uri>,
                            v: Verdict, evidence: StatusEvidence)
  {
    if SomeServiceDecides(env, policy, subject, issuer, t, services) then
      exists i, body :: 0 <= i < |services| && DecidingService(env, policy, subject, issuer, t, services, i)
        && ServiceSays(env, policy, subject, issuer, t, services[i], v, body) && evidence == Ocsp(Der(body))
    else
      && issuer.extensions.Some? && issuer.extensions.value.crlSign
      && exists i, body :: 0 <= i < |lists| && DecidingList(env, subject, issuer, t, lists, i)
           && ListSays(env, subject, issuer, t, lists[i], v, body) && evidence == Crl(Der(body))
  }

  ghost predicate NoneSays(env: Env, policy: NoncePolicy, subject: Cert, issuer: Cert, t: int, services: seq<Uri>, lists: seq<Uri>) {
    && !SomeServiceDecides(env, policy, subject, issuer, t, services)
    && !(issuer.extensions.Some? && issuer.extensions.value.crlSign
         && exists i :: 0 <= i < |lists| && DecidingList(env, subject, issuer, t, lists, i))
  }

  /** The first decisive answer of a scan that stops at a missing nonce. */
  ghost predicate ScanAt(answers: seq<Answer>, i: nat)
    requires i < |answers|
  {
    Decisive(answers[i]) && forall h :: 0 <= h < i ==> answers[h] == Inconclusive
  }

  lemma {:induction false} ScanFirst(answers: seq<Answer>)
    ensures FirstDecisive(BeforeNonceFailure(answers)).None? ==> forall i :: 0 <= i < |answers| ==> !ScanAt(answers, i)
    ensures forall i :: 0 <= i < |answers| && ScanAt(answers, i) ==> FirstDecisive(BeforeNonceFailure(answers)) == Some(answers[i])
    ensures FirstDecisive(BeforeNonceFailure(answers)).Some? ==> exists i :: 0 <= i < |answers| && ScanAt(answers, i)
  {
    if answers != [] {
      var rest := answers[1..];
      ScanFirst(rest);
      if answers[0] == Inconclusive {
        assert BeforeNonceFailure(answers)[1..] == BeforeNonceFailure(rest);
        forall i | 0 < i < |answers|
          ensures ScanAt(answers, i) <==> ScanAt(rest, i - 1)
        {
          assert forall h :: 0 < h < i ==> answers[h] == rest[h - 1];
          assert forall h :: 0 <= h < i - 1 ==> rest[h] == answers[h + 1];
        }
        if FirstDecisive(BeforeNonceFailure(rest)).Some? {
          var k :| 0 <= k < |rest| && ScanAt(rest, k);
          assert ScanAt(answers, k + 1);
        }
      } else if Decisive(answers[0]) {
        assert ScanAt(answers, 0);
      }
    }
  }

  lemma OcspAnswerMeans(env: Env, policy: NoncePolicy, subject: Cert, issuer: Cert, t: int, url: Uri)
    ensures var a := OcspAnswer(env, policy, subject, issuer, t, url);
            && (a == NoNonce <==> env.drawNonce(subject, url).None?)
            && (Decisive(a) <==> ServiceDecides(env, policy, subject, issuer, t, url))
            && (forall body :: ServiceSays(env, policy, subject, issuer, t, url, SaysGood, body) <==> a == Good(Ocsp(Der(body))))
            && (a == Bad <==> exists body :: ServiceSays(env, policy, subject, issuer, t, url, SaysRevoked, body))
            && (a.Good? ==> exists body :: ServiceSays(env, policy, subject, issuer, t, url, SaysGood, body))
  {
    if env.drawNonce(subject, url).Some? {
      var nonce := env.drawNonce(subject, url).value;
      var got := PostRun(env.web, env.ocspRequest(subject, issuer, nonce), CertificateMaterial, url).outcome;
      if got.Ok? {
        var v := env.judgeOcsp(policy, got.value, subject, issuer, nonce, t);
        assert ServiceSays(env, policy, subject, issuer, t, url, v, got.value);
      }
    }
  }

  lemma CrlAnswerMeans(env: Env, subject: Cert, issuer: Cert, t: int, url: Uri)
    ensures var a := CrlAnswer(env, subject, issuer, t, url);
            && a != NoNonce
            && (Decisive(a) <==> ListDecides(env, subject, issuer, t, url))
            && (forall body :: ListSays(env, subject, issuer, t, url, SaysGood, body) <==> a == Good(Crl(Der(body))))
            && (a == Bad <==> exists body :: ListSays(env, subject, issuer, t, url, SaysRevoked, body))
            && (a.Good? ==> exists body :: ListSays(env, subject, issuer, t, url, SaysGood, body))
  {
    var got := GetRun(env.web, CertificateMaterial, url).outcome;
    if got.Ok? {
      assert ListSays(env, subject, issuer, t, url, env.judgeCrl(got.value, subject, issuer, t), got.value);
    }
  }

  lemma ServicesScan(env: Env, policy: NoncePolicy, subject: Cert, issuer: Cert, t: int, services: seq<Uri>, i: nat)
    requires i < |services|
    ensures ScanAt(OcspAnswers(env, policy, subject, issuer, t, services), i)
            <==> DecidingService(env, policy, subject, issuer, t, services, i)
  {
    forall h | 0 <= h <= i
      ensures var a := OcspAnswers(env, policy, subject, issuer, t, services)[h];
              && (a == NoNonce <==> env.drawNonce(subject, services[h]).None?)
              && (Decisive(a) <==> ServiceDecides(env, policy, subject, issuer, t, services[h]))
    {
      OcspAnswerMeans(env, policy, subject, issuer, t, services[h]);
    }
  }

  lemma ListsScan(env: Env, subject: Cert, issuer: Cert, t: int, lists: seq<Uri>, i: nat)
    requires i < |lists|
    ensures ScanAt(CrlAnswers(env, subject, issuer, t, lists), i) <==> DecidingList(env, subject, issuer, t, lists, i)
  {
    forall h | 0 <= h <= i
      ensures var a := CrlAnswers(env, subject, issuer, t, lists)[h];
              a != NoNonce && (Decisive(a) <==> ListDecides(env, subject, issuer, t, lists[h]))
    {
      CrlAnswerMeans(env, subject, issuer, t, lists[h]);
    }
  }

  /** What the services' part of the answers amounts to. */
  lemma ServicesVerdict(env: Env, policy: NoncePolicy, subject: Cert, issuer: Cert, t: int, services: seq<Uri>) returns (i: nat)
    ensures var f := FirstDecisive(BeforeNonceFailure(OcspAnswers(env, policy, subject, issuer, t, services)));
            if f.None? then !SomeServiceDecides(env, policy, subject, issuer, t, services)
            else
              && i < |services| && DecidingService(env, policy, subject, issuer, t, services, i)
              && f.value == OcspAnswer(env, policy, subject, issuer, t, services[i])
              && forall j :: 0 <= j < |services| && DecidingService(env, policy, subject, issuer, t, services, j) ==> j == i
  {
    i := 0;
    var answers := OcspAnswers(env, policy, subject, issuer, t, services);
    ScanFirst(answers);
    forall j | 0 <= j < |services|
      ensures ScanAt(answers, j) <==> DecidingService(env, policy, subject, issuer, t, services, j)
    {
      ServicesScan(env, policy, subject, issuer, t, services, j);
    }
    if FirstDecisive(BeforeNonceFailure(answers)).Some? {
      i :| 0 <= i < |answers| && ScanAt(answers, i);
    }
  }

  lemma ListsVerdict(env: Env, subject: Cert, issuer: Cert, t: int, lists: seq<Uri>) returns (i: nat)
    ensures var f := FirstDecisive(CrlAnswers(env, subject, issuer, t, lists));
            if f.None? then forall j :: 0 <= j < |lists| ==> !DecidingList(env, subject, issuer, t, lists, j)
            else
              && i < |lists| && DecidingList(env, subject, issuer, t, lists, i)
              && f.value == CrlAnswer(env, subject, issuer, t, lists[i])
              && forall j :: 0 <= j < |lists| && DecidingList(env, subject, issuer, t, lists, j) ==> j == i
  {
    i := 0;
    var answers := CrlAnswers(env, subject, issuer, t, lists);
    forall h | 0 <= h < |answers|
      ensures answers[h] != NoNonce
    {
      CrlAnswerMeans(env, subject, issuer, t, lists[h]);
    }
    NoNonceMeansAll(answers);
    ScanFirst(answers);
    forall j | 0 <= j < |lists|
      ensures ScanAt(answers, j) <==> DecidingList(env, subject, issuer, t, lists, j)
    {
      ListsScan(env, subject, issuer, t, lists, j);
    }
    if FirstDecisive(answers).Some? {
      i :| 0 <= i < |answers| && ScanAt(answers, i);
    }
  }

  /** The verdict is that of the first endpoint whose body is judged good or revoked:
      evidence is its body, Revoked is what it said, and any other failure means that
      none said either. */
  ghost predicate VerdictOfBodies(env: Env, policy: NoncePolicy, subject: Cert, issuer: Cert, t: int, services: seq<Uri>, lists: seq<Uri>,
                                  r: Result<StatusEvidence, MaterialError>)
  {
    match r
    case Ok(evidence) => FirstSays(env, policy, subject, issuer, t, services, lists, SaysGood, evidence)
    case Err(e) =>
      if e == Revoked then exists evidence :: FirstSays(env, policy, subject, issuer, t, services, lists, SaysRevoked, evidence)
      else
        && NoneSays(env, policy, subject, issuer, t, services, lists)
        && e == if exists u :: u in services && env.drawNonce(subject, u).None? then Rng else Revocation
  }

  lemma ServiceVerdictSays(env: Env, policy: NoncePolicy, subject: Cert, issuer: Cert, t: int, services: seq<Uri>, lists: seq<Uri>, i: nat)
    requires i < |services| && DecidingService(env, policy, subject, issuer, t, services, i)
    ensures var a := OcspAnswer(env, policy, subject, issuer, t, services[i]);
            && Decisive(a)
            && (a.Good? ==> FirstSays(env, policy, subject, issuer, t, services, lists, SaysGood, a.evidence))
            && (a == Bad ==> exists evidence :: FirstSays(env, policy, subject, issuer, t, services, lists, SaysRevoked, evidence))
  {
    OcspAnswerMeans(env, policy, subject, issuer, t, services[i]);
    var a := OcspAnswer(env, policy, subject, issuer, t, services[i]);
    if a == Bad {
      var body :| ServiceSays(env, policy, subject, issuer, t, services[i], SaysRevoked, body);
      assert FirstSays(env, policy, subject, issuer, t, services, lists, SaysRevoked, Ocsp(Der(body)));
    }
  }

  lemma ListVerdictSays(env: Env, policy: NoncePolicy, subject: Cert, issuer: Cert, t: int, services: seq<Uri>, lists: seq<Uri>, i: nat)
    requires !SomeServiceDecides(env, policy, subject, issuer, t, services) && MayIssueCrls(issuer)
    requires i < |lists| && DecidingList(env, subject, issuer, t, lists, i)
    ensures var a := CrlAnswer(env, subject, issuer, t, lists[i]);
            && Decisive(a)
            && (a.Good? ==> FirstSays(env, policy, subject, issuer, t, services, lists, SaysGood, a.evidence))
            && (a == Bad ==> exists evidence :: FirstSays(env, policy, subject, issuer, t, services, lists, SaysRevoked, evidence))
  {
    CrlAnswerMeans(env, subject, issuer, t, lists[i]);
    var a := CrlAnswer(env, subject, issuer, t, lists[i]);
    if a == Bad {
      var body :| ListSays(env, subject, issuer, t, lists[i], SaysRevoked, body);
      assert FirstSays(env, policy, subject, issuer, t, services, lists, SaysRevoked, Crl(Der(body)));
    }
  }

  lemma NonceFailureMeans(env: Env, policy: NoncePolicy, subject: Cert, issuer: Cert, t: int, services: seq<Uri>)
    ensures NoNonce in OcspAnswers(env, policy, subject, issuer, t, services) <==>
            exists u :: u in services && env.drawNonce(subject, u).None?
  {
    var answers := OcspAnswers(env, policy, subject, issuer, t, services);
    forall h | 0 <= h < |services|
      ensures answers[h] == NoNonce <==> env.drawNonce(subject, services[h]).None?
    {
      OcspAnswerMeans(env, policy, subject, issuer, t, services[h]);
    }
  }

  /** The law, over the first three different addresses of each kind. */
  lemma StatusOfBodies(env: Env, policy: NoncePolicy, subject: Cert, issuer: Cert, t: int)
    ensures subject.extensions.None? ==> StatusOf(env, policy, subject, issuer, t) == Err(Revocation)
    ensures subject.extensions.Some? ==> exists services, lists ::
              && FirstThree(subject.extensions.value.ocsp, services)
              && FirstThree(subject.extensions.value.crls, lists)
              && VerdictOfBodies(env, policy, subject, issuer, t, services, lists, StatusOf(env, policy, subject, issuer, t))
  {
    if subject.extensions.Some? {
      var services, lists := Bounded(subject.extensions.value.ocsp), Bounded(subject.extensions.value.crls);
      BoundedIsFirstThree(subject.extensions.value.ocsp);
      BoundedIsFirstThree(subject.extensions.value.crls);
      FirstVerdictOfBoth(env, policy, subject, issuer, t);
      NonceFailureMeans(env, policy, subject, issuer, t, services);
      var i := ServicesVerdict(env, policy, subject, issuer, t, services);
      if SomeServiceDecides(env, policy, subject, issuer, t, services) {
        ServiceVerdictSays(env, policy, subject, issuer, t, services, lists, i);
      } else if MayIssueCrls(issuer) {
        var j := ListsVerdict(env, subject, issuer, t, lists);
        if FirstDecisive(CrlAnswers(env, subject, issuer, t, lists)).Some? {
          ListVerdictSays(env, policy, subject, issuer, t, services, lists, j);
        }
      }
      assert VerdictOfBodies(env, policy, subject, issuer, t, services, lists, StatusOf(env, policy, subject, issuer, t));
    }
  }
}
