/** Redirect runs of the HTTP client.  Sockets, name resolution and reference
    resolution are inputs; what is modelled is the loop that decides which
    address the next exchange may go to. */
module Http {
  import opened Basics

  datatype Scheme = PlainHttp | Https

  datatype Uri = Uri(scheme: Scheme, host: string, port: nat, target: string)

  datatype Endpoint = CertificateMaterial | Authority

  datatype Response = Response(code: nat, location: Option<string>, body: seq<byte>)

  datatype TransportError = TransportError(kind: nat)

  datatype HttpError =
    | Exchange(cause: TransportError)
    | HttpStatus(code: nat, location: Option<string>)
    | TooManyRedirects
    | BadLocation
    | Downgrade
    | OriginChanged
    | InsecureCredentials
    | RedirectLoop

  /** What a POST carries besides its address. */
  datatype Request = Request(contentType: string, body: seq<byte>, authorization: Option<string>)

  /** The network as it answers: the reply to an exchange may depend on how many
      exchanges went before it.  `join` resolves a reference against an address. */
  datatype Network = Network(
    get: (nat, Uri) -> Result<Response, TransportError>,
    post: (nat, Uri, Request) -> Result<Response, TransportError>,
    join: (Uri, string) -> Option<Uri>)

  /** A network that gives one address one answer. */
  datatype Web = Web(
    get: Uri -> Result<Response, TransportError>,
    post: (Uri, Request) -> Result<Response, TransportError>,
    join: (Uri, string) -> Option<Uri>)

  ghost predicate Steady(network: Network, web: Web) {
    && network.join == web.join
    && (forall k, u :: network.get(k, u) == web.get(u))
    && (forall k, u, q :: network.post(k, u, q) == web.post(u, q))
  }

  /** One exchange that left the machine. */
  datatype Sent = Sent(uri: Uri, authorization: Option<string>)

  const MAX_CERTIFICATE_REDIRECTS: nat := 2
  const MAX_AUTHORITY_REDIRECTS: nat := 1
  const GET_REDIRECT_CODES: set<nat> := {301, 302, 307, 308}
  const POST_REDIRECT_CODES: set<nat> := {307, 308}

  function MaximumRedirects(endpoint: Endpoint): nat {
    match endpoint
    case CertificateMaterial => MAX_CERTIFICATE_REDIRECTS
    case Authority => MAX_AUTHORITY_REDIRECTS
  }

  predicate SameOrigin(a: Uri, b: Uri) {
    a.scheme == b.scheme && a.host == b.host && a.port == b.port
  }

  function CheckRedirect(from: Uri, to: Uri, endpoint: Endpoint): Option<HttpError> {
    if from.scheme == Https && to.scheme == PlainHttp then Some(Downgrade)
    else if endpoint == Authority
            && !SameOrigin(from, to)
            && !(from.scheme == PlainHttp && to.scheme == Https && from.host == to.host)
    then Some(OriginChanged)
    else None
  }

  predicate IsSuccess(code: nat) {
    200 <= code < 300
  }

  /** A whole run: the addresses exchanged with, in order, and how it ended. */
  datatype Run = Run(visited: seq<Uri>, outcome: Result<seq<byte>, HttpError>)

  /** What the loop body does with one answer: end the run, or go on to `next`. */
  datatype Step = Stop(outcome: Result<seq<byte>, HttpError>) | Hop(next: Uri)

  /** What a redirect loop is started with. */
  datatype Policy = Policy(endpoint: Endpoint, codes: set<nat>, limit: nat, join: (Uri, string) -> Option<Uri>)

  function Decide(answer: Result<Response, TransportError>, policy: Policy, followed: nat, current: Uri): Step {
    match answer
    case Err(cause) => Stop(Err(Exchange(cause)))
    case Ok(response) =>
      if IsSuccess(response.code) then Stop(Ok(response.body))
      else if response.code !in policy.codes then Stop(Err(HttpStatus(response.code, response.location)))
      else if followed == policy.limit then Stop(Err(TooManyRedirects))
      else if response.location.None? then Stop(Err(HttpStatus(response.code, None)))
      else match policy.join(current, response.location.value)
        case None => Stop(Err(BadLocation))
        case Some(next) =>
          match CheckRedirect(current, next, policy.endpoint)
          case Some(refusal) => Stop(Err(refusal))
          case None => Hop(next)
  }

  /** The loop from turn `followed` on; a loop that runs out of turns reaches the
      statement behind it. */
  function Follow(exchange: (nat, Uri) -> Result<Response, TransportError>, policy: Policy, followed: nat, current: Uri): (r: Run)
    ensures followed <= policy.limit ==> r.visited != [] && r.visited[0] == current
    decreases policy.limit + 1 - followed
  {
    if followed > policy.limit then Run([], Err(RedirectLoop))
    else
      match Decide(exchange(followed, current), policy, followed, current)
      case Stop(outcome) => Run([current], outcome)
      case Hop(next) =>
        var rest := Follow(exchange, policy, followed + 1, next);
        Run([current] + rest.visited, rest.outcome)
  }

  /** One turn of the loop, as seen by a run that already visited `seen`. */
  lemma FollowUnfolds(exchange: (nat, Uri) -> Result<Response, TransportError>, policy: Policy, followed: nat, current: Uri,
                      seen: seq<Uri>)
    requires followed <= policy.limit
    ensures var step := Decide(exchange(followed, current), policy, followed, current);
            var here := Follow(exchange, policy, followed, current);
            && (step.Stop? ==> seen + here.visited == seen + [current] && here.outcome == step.outcome)
            && (step.Hop? ==>
                  var rest := Follow(exchange, policy, followed + 1, step.next);
                  seen + here.visited == (seen + [current]) + rest.visited && here.outcome == rest.outcome)
  {
    var step := Decide(exchange(followed, current), policy, followed, current);
    if step.Hop? {
      var rest := Follow(exchange, policy, followed + 1, step.next);
      assert seen + ([current] + rest.visited) == (seen + [current]) + rest.visited;
    }
  }

  /** Runs see nothing of the network but its answers. */
  lemma {:induction false} SameAnswersSameRun(e1: (nat, Uri) -> Result<Response, TransportError>,
                                              e2: (nat, Uri) -> Result<Response, TransportError>,
                                              policy: Policy, followed: nat, current: Uri)
    requires forall k, u :: e1(k, u) == e2(k, u)
    ensures Follow(e1, policy, followed, current) == Follow(e2, policy, followed, current)
    decreases policy.limit + 1 - followed
  {
    if followed <= policy.limit {
      var step := Decide(e1(followed, current), policy, followed, current);
      if step.Hop? {
        SameAnswersSameRun(e1, e2, policy, followed + 1, step.next);
      }
    }
  }

  ghost predicate AllowedHops(visited: seq<Uri>, endpoint: Endpoint) {
    forall i :: 0 <= i < |visited| - 1 ==> CheckRedirect(visited[i], visited[i + 1], endpoint) == None
  }

  lemma {:induction false} FollowIsBounded(exchange: (nat, Uri) -> Result<Response, TransportError>, policy: Policy,
                                           followed: nat, current: Uri)
    requires followed <= policy.limit
    ensures var r := Follow(exchange, policy, followed, current);
            && |r.visited| <= policy.limit - followed + 1
            && AllowedHops(r.visited, policy.endpoint)
            && r.outcome != Err(RedirectLoop)
    decreases policy.limit - followed
  {
    var step := Decide(exchange(followed, current), policy, followed, current);
    if step.Hop? {
      assert followed < policy.limit;
      FollowIsBounded(exchange, policy, followed + 1, step.next);
      AllowedHopsExtend(current, Follow(exchange, policy, followed + 1, step.next).visited, policy.endpoint);
    }
  }

  lemma AllowedHopsExtend(first: Uri, visited: seq<Uri>, endpoint: Endpoint)
    requires AllowedHops(visited, endpoint) && visited != [] && CheckRedirect(first, visited[0], endpoint) == None
    ensures AllowedHops([first] + visited, endpoint)
  {
    var longer := [first] + visited;
    forall i | 0 <= i < |longer| - 1
      ensures CheckRedirect(longer[i], longer[i + 1], endpoint) == None
    {
      if i > 0 {
        assert longer[i] == visited[i - 1] && longer[i + 1] == visited[i];
      }
    }
  }

  /** The origin rule over a whole run: HTTPS is never left again, an authority
      run never changes host, and one that starts on HTTPS never changes origin. */
  ghost predicate KeepsOrigin(visited: seq<Uri>, endpoint: Endpoint) {
    && (forall i, j :: 0 <= i < j < |visited| && visited[i].scheme == Https ==> visited[j].scheme == Https)
    && (endpoint == Authority ==> forall i, j :: 0 <= i < j < |visited| ==> visited[i].host == visited[j].host)
    && (endpoint == Authority ==>
          forall i, j :: 0 <= i < j < |visited| && visited[i].scheme == Https ==> SameOrigin(visited[i], visited[j]))
  }

  lemma {:induction false} AllowedHopsKeepOrigin(visited: seq<Uri>, endpoint: Endpoint)
    requires AllowedHops(visited, endpoint)
    ensures KeepsOrigin(visited, endpoint)
    decreases |visited|
  {
    if |visited| > 1 {
      var prefix := visited[..|visited| - 1];
      AllowedHopsKeepOrigin(prefix, endpoint);
      var last := |visited| - 1;
      assert CheckRedirect(visited[last - 1], visited[last], endpoint) == None;
      assert forall i :: 0 <= i < last ==> prefix[i] == visited[i];
      assert forall i :: 0 <= i < last - 1 && prefix[i].scheme == Https ==> prefix[last - 1].scheme == Https;
    }
  }

  /** Every redirect run, whatever the servers answer and however often they change
      their minds: bounded, within the origin rule, and never through the statement
      behind the loop. */
  lemma RedirectRun(exchange: (nat, Uri) -> Result<Response, TransportError>, policy: Policy, start: Uri)
    ensures var r := Follow(exchange, policy, 0, start);
            && 1 <= |r.visited| <= policy.limit + 1
            && r.visited[0] == start
            && KeepsOrigin(r.visited, policy.endpoint)
            && r.outcome != Err(RedirectLoop)
  {
    FollowIsBounded(exchange, policy, 0, start);
    AllowedHopsKeepOrigin(Follow(exchange, policy, 0, start).visited, policy.endpoint);
  }

  // ----- every run, spelled out

  /** The redirects an endpoint may take: never off HTTPS, and for an authority only
      within its origin or from HTTP up to HTTPS on the same host. */
  ghost predicate Allowed(from: Uri, to: Uri, endpoint: Endpoint) {
    && !(from.scheme == Https && to.scheme == PlainHttp)
    && (endpoint == Authority ==>
          from.host == to.host && ((from.scheme == to.scheme && from.port == to.port) || (from.scheme == PlainHttp && to.scheme == Https)))
  }

  ghost predicate Redirecting(answer: Result<Response, TransportError>, codes: set<nat>) {
    answer.Ok? && !(200 <= answer.value.code <= 299) && answer.value.code in codes
  }

  /** The answer sends the run from `from` to `to`. */
  ghost predicate Sends(answer: Result<Response, TransportError>, policy: Policy, from: Uri, to: Uri) {
    && Redirecting(answer, policy.codes)
    && answer.value.location.Some?
    && policy.join(from, answer.value.location.value) == Some(to)
    && Allowed(from, to, policy.endpoint)
  }

  /** How an answer ends a run that stands at `at`, with or without a redirect left. */
  ghost predicate Ends(answer: Result<Response, TransportError>, policy: Policy, at: Uri, spent: bool,
                       outcome: Result<seq<byte>, HttpError>)
  {
    match answer
    case Err(cause) => outcome == Err(Exchange(cause))
    case Ok(response) =>
      if 200 <= response.code <= 299 then outcome == Ok(response.body)
      else if response.code !in policy.codes then outcome == Err(HttpStatus(response.code, response.location))
      else if spent then outcome == Err(TooManyRedirects)
      else if response.location.None? then outcome == Err(HttpStatus(response.code, None))
      else
        match policy.join(at, response.location.value)
        case None => outcome == Err(BadLocation)
        case Some(to) =>
          && !Allowed(at, to, policy.endpoint)
          && outcome == Err(if at.scheme == Https && to.scheme == PlainHttp then Downgrade else OriginChanged)
  }

  /** A run over `visited` with these answers and `left` redirects to spend. */
  ghost predicate Redirected(answers: seq<Result<Response, TransportError>>, policy: Policy, left: nat, visited: seq<Uri>,
                             outcome: Result<seq<byte>, HttpError>)
  {
    var n := |visited| - 1;
    && visited != [] && |answers| == |visited| && n <= left
    && (forall i :: 0 <= i < n ==> Sends(answers[i], policy, visited[i], visited[i + 1]))
    && Ends(answers[n], policy, visited[n], n == left, outcome)
  }

  /** The answers a run got, the first of them to exchange number `base`. */
  ghost function Heard(exchange: (nat, Uri) -> Result<Response, TransportError>, base: nat, visited: seq<Uri>)
      : (r: seq<Result<Response, TransportError>>)
    ensures |r| == |visited| && forall i :: 0 <= i < |r| ==> r[i] == exchange(base + i, visited[i])
  {
    seq(|visited|, i requires 0 <= i < |visited| => exchange(base + i, visited[i]))
  }

  lemma DecisionIs(answer: Result<Response, TransportError>, policy: Policy, followed: nat, current: Uri)
    requires followed <= policy.limit
    ensures var step := Decide(answer, policy, followed, current);
            && (step.Stop? ==> Ends(answer, policy, current, followed == policy.limit, step.outcome))
            && (step.Hop? ==> Sends(answer, policy, current, step.next) && followed < policy.limit)
  {
  }

  lemma PrependHop(first: Result<Response, TransportError>, answers: seq<Result<Response, TransportError>>, policy: Policy,
                   left: nat, from: Uri, visited: seq<Uri>, outcome: Result<seq<byte>, HttpError>)
    requires Redirected(answers, policy, left, visited, outcome) && Sends(first, policy, from, visited[0])
    ensures Redirected([first] + answers, policy, left + 1, [from] + visited, outcome)
  {
    var longer, all := [from] + visited, [first] + answers;
    forall i | 0 <= i < |longer| - 1
      ensures Sends(all[i], policy, longer[i], longer[i + 1])
    {
      if i > 0 {
        assert Sends(answers[i - 1], policy, visited[i - 1], visited[i - 1 + 1]);
      }
    }
  }

  lemma HeardCons(exchange: (nat, Uri) -> Result<Response, TransportError>, base: nat, first: Uri, rest: seq<Uri>)
    ensures Heard(exchange, base, [first] + rest) == [exchange(base, first)] + Heard(exchange, base + 1, rest)
  {
    var all, whole := [first] + rest, Heard(exchange, base, [first] + rest);
    forall i | 0 <= i < |whole|
      ensures whole[i] == ([exchange(base, first)] + Heard(exchange, base + 1, rest))[i]
    {
      if i > 0 {
        assert all[i] == rest[i - 1];
      }
    }
  }

  lemma StopIsRedirected(answer: Result<Response, TransportError>, policy: Policy, left: nat, at: Uri, outcome: Result<seq<byte>, HttpError>)
    requires Ends(answer, policy, at, left == 0, outcome)
    ensures Redirected([answer], policy, left, [at], outcome)
  {
  }

  lemma {:induction false} FollowIsRedirected(exchange: (nat, Uri) -> Result<Response, TransportError>, policy: Policy,
                                              followed: nat, current: Uri)
    requires followed <= policy.limit
    ensures var r := Follow(exchange, policy, followed, current);
            Redirected(Heard(exchange, followed, r.visited), policy, policy.limit - followed, r.visited, r.outcome)
    decreases policy.limit - followed
  {
    var answer := exchange(followed, current);
    var step := Decide(answer, policy, followed, current);
    DecisionIs(answer, policy, followed, current);
    if step.Hop? {
      var rest := Follow(exchange, policy, followed + 1, step.next);
      FollowIsRedirected(exchange, policy, followed + 1, step.next);
      PrependHop(answer, Heard(exchange, followed + 1, rest.visited), policy, policy.limit - followed - 1, current,
                 rest.visited, rest.outcome);
      HeardCons(exchange, followed, current, rest.visited);
    } else {
      StopIsRedirected(answer, policy, policy.limit - followed, current, step.outcome);
      HeardCons(exchange, followed, current, []);
      assert [current] + [] == [current];
    }
  }

  /** The redirects an endpoint has to spend, and the answers that spend one. */
  ghost predicate IsGetPolicy(policy: Policy) {
    policy.codes == {301, 302, 307, 308} && policy.limit == match policy.endpoint case CertificateMaterial => 2 case Authority => 1
  }

  ghost predicate IsPostPolicy(policy: Policy) {
    policy.codes == {307, 308} && policy.limit == match policy.endpoint case CertificateMaterial => 2 case Authority => 1
  }

  /** The log grew by one entry for each address, in order. */
  ghost predicate Logged(before: seq<Sent>, log: seq<Sent>, visited: seq<Uri>, authorization: Option<string>) {
    && |log| == |before| + |visited| && before <= log
    && forall i :: 0 <= i < |visited| ==> log[|before| + i] == Sent(visited[i], authorization)
  }

  lemma FinishedIsLogged(run: Run, before: seq<Sent>, log: seq<Sent>, authorization: Option<string>, r: Result<seq<byte>, HttpError>)
    requires Finished(run, before, log, authorization, r)
    ensures Logged(before, log, run.visited, authorization)
  {
    forall i | 0 <= i < |run.visited|
      ensures log[|before| + i] == Sent(run.visited[i], authorization)
    {
      SentToAt(run.visited, authorization, i);
    }
  }

  /** A GET, exactly: what was asked, what was answered, what came of it. */
  ghost predicate Got(network: Network, before: seq<Sent>, log: seq<Sent>, endpoint: Endpoint, url: Uri,
                      r: Result<seq<byte>, HttpError>, visited: seq<Uri>)
  {
    && Logged(before, log, visited, None)
    && visited != [] && visited[0] == url
    && exists answers, policy ::
         && IsGetPolicy(policy) && policy.endpoint == endpoint && policy.join == network.join
         && Redirected(answers, policy, policy.limit, visited, r)
         && forall i :: 0 <= i < |visited| ==> answers[i] == network.get(|before| + i, visited[i])
  }

  ghost predicate Posted(network: Network, before: seq<Sent>, log: seq<Sent>, request: Request, endpoint: Endpoint, url: Uri,
                         r: Result<seq<byte>, HttpError>, visited: seq<Uri>)
  {
    && Logged(before, log, visited, request.authorization)
    && visited != [] && visited[0] == url
    && exists answers, policy ::
         && IsPostPolicy(policy) && policy.endpoint == endpoint && policy.join == network.join
         && Redirected(answers, policy, policy.limit, visited, r)
         && forall i :: 0 <= i < |visited| ==> answers[i] == network.post(|before| + i, visited[i], request)
  }

  lemma GetPolicyIs(endpoint: Endpoint, join: (Uri, string) -> Option<Uri>)
    ensures var policy := GetPolicy(endpoint, join);
            IsGetPolicy(policy) && policy.endpoint == endpoint && policy.join == join
  {
  }

  lemma PostPolicyIs(endpoint: Endpoint, join: (Uri, string) -> Option<Uri>)
    ensures var policy := PostPolicy(endpoint, join);
            IsPostPolicy(policy) && policy.endpoint == endpoint && policy.join == join
  {
  }

  lemma GotIf(network: Network, before: seq<Sent>, log: seq<Sent>, url: Uri, r: Result<seq<byte>, HttpError>, visited: seq<Uri>,
              policy: Policy)
    requires IsGetPolicy(policy) && policy.join == network.join && visited != [] && visited[0] == url
    requires Logged(before, log, visited, None)
    requires Redirected(Heard(Gets(network, |before|), 0, visited), policy, policy.limit, visited, r)
    ensures Got(network, before, log, policy.endpoint, url, r, visited)
  {
    var answers := Heard(Gets(network, |before|), 0, visited);
    assert forall i :: 0 <= i < |visited| ==> answers[i] == network.get(|before| + i, visited[i]);
  }

  lemma PostedIf(network: Network, before: seq<Sent>, log: seq<Sent>, request: Request, url: Uri, r: Result<seq<byte>, HttpError>,
                 visited: seq<Uri>, policy: Policy)
    requires IsPostPolicy(policy) && policy.join == network.join && visited != [] && visited[0] == url
    requires Logged(before, log, visited, request.authorization)
    requires Redirected(Heard(Posts(network, |before|, request), 0, visited), policy, policy.limit, visited, r)
    ensures Posted(network, before, log, request, policy.endpoint, url, r, visited)
  {
    var answers := Heard(Posts(network, |before|, request), 0, visited);
    assert forall i :: 0 <= i < |visited| ==> answers[i] == network.post(|before| + i, visited[i], request);
  }

  lemma LiveGetIsGot(network: Network, before: seq<Sent>, log: seq<Sent>, endpoint: Endpoint, url: Uri, r: Result<seq<byte>, HttpError>)
    requires Finished(LiveGet(network, |before|, endpoint, url), before, log, None, r)
    ensures Got(network, before, log, endpoint, url, r, LiveGet(network, |before|, endpoint, url).visited)
  {
    var run, policy := LiveGet(network, |before|, endpoint, url), GetPolicy(endpoint, network.join);
    FinishedIsLogged(run, before, log, None, r);
    FollowIsRedirected(Gets(network, |before|), policy, 0, url);
    GetPolicyIs(endpoint, network.join);
    GotIf(network, before, log, url, r, run.visited, policy);
  }

  lemma LivePostIsPosted(network: Network, before: seq<Sent>, log: seq<Sent>, request: Request, endpoint: Endpoint, url: Uri,
                         r: Result<seq<byte>, HttpError>)
    requires Finished(LivePost(network, |before|, request, endpoint, url), before, log, request.authorization, r)
    ensures Posted(network, before, log, request, endpoint, url, r, LivePost(network, |before|, request, endpoint, url).visited)
  {
    var run, policy := LivePost(network, |before|, request, endpoint, url), PostPolicy(endpoint, network.join);
    FinishedIsLogged(run, before, log, request.authorization, r);
    FollowIsRedirected(Posts(network, |before|, request), policy, 0, url);
    PostPolicyIs(endpoint, network.join);
    PostedIf(network, before, log, request, url, r, run.visited, policy);
  }

  // ----- runs of the two loops

  function GetPolicy(endpoint: Endpoint, join: (Uri, string) -> Option<Uri>): Policy {
    Policy(endpoint, GET_REDIRECT_CODES, MaximumRedirects(endpoint), join)
  }

  function PostPolicy(endpoint: Endpoint, join: (Uri, string) -> Option<Uri>): Policy {
    Policy(endpoint, POST_REDIRECT_CODES, MaximumRedirects(endpoint), join)
  }

  /** What a run that starts after `base` exchanges is answered. */
  function Gets(network: Network, base: nat): (nat, Uri) -> Result<Response, TransportError> {
    (k: nat, u: Uri) => network.get(base + k, u)
  }

  function Posts(network: Network, base: nat, request: Request): (nat, Uri) -> Result<Response, TransportError> {
    (k: nat, u: Uri) => network.post(base + k, u, request)
  }

  function LiveGet(network: Network, base: nat, endpoint: Endpoint, url: Uri): Run {
    Follow(Gets(network, base), GetPolicy(endpoint, network.join), 0, url)
  }

  function LivePost(network: Network, base: nat, request: Request, endpoint: Endpoint, url: Uri): Run {
    Follow(Posts(network, base, request), PostPolicy(endpoint, network.join), 0, url)
  }

  /** The same runs on a network that gives one address one answer. */
  function GetRun(web: Web, endpoint: Endpoint, url: Uri): Run {
    Follow((k: nat, u: Uri) => web.get(u), GetPolicy(endpoint, web.join), 0, url)
  }

  function PostRun(web: Web, request: Request, endpoint: Endpoint, url: Uri): Run {
    Follow((k: nat, u: Uri) => web.post(u, request), PostPolicy(endpoint, web.join), 0, url)
  }

  lemma SteadyGet(network: Network, web: Web, base: nat, endpoint: Endpoint, url: Uri)
    requires Steady(network, web)
    ensures LiveGet(network, base, endpoint, url) == GetRun(web, endpoint, url)
  {
    SameAnswersSameRun(Gets(network, base), (k: nat, u: Uri) => web.get(u), GetPolicy(endpoint, web.join), 0, url);
  }

  lemma SteadyPost(network: Network, web: Web, base: nat, request: Request, endpoint: Endpoint, url: Uri)
    requires Steady(network, web)
    ensures LivePost(network, base, request, endpoint, url) == PostRun(web, request, endpoint, url)
  {
    SameAnswersSameRun(Posts(network, base, request), (k: nat, u: Uri) => web.post(u, request),
                       PostPolicy(endpoint, web.join), 0, url);
  }

  /** A GET on a network that gives one address one answer, exactly. */
  ghost predicate SteadilyGot(web: Web, endpoint: Endpoint, url: Uri, visited: seq<Uri>, r: Result<seq<byte>, HttpError>) {
    && visited != [] && visited[0] == url
    && exists answers, policy ::
         && IsGetPolicy(policy) && policy.endpoint == endpoint && policy.join == web.join
         && Redirected(answers, policy, policy.limit, visited, r)
         && forall i :: 0 <= i < |visited| ==> answers[i] == web.get(visited[i])
  }

  ghost predicate SteadilyPosted(web: Web, request: Request, endpoint: Endpoint, url: Uri, visited: seq<Uri>, r: Result<seq<byte>, HttpError>) {
    && visited != [] && visited[0] == url
    && exists answers, policy ::
         && IsPostPolicy(policy) && policy.endpoint == endpoint && policy.join == web.join
         && Redirected(answers, policy, policy.limit, visited, r)
         && forall i :: 0 <= i < |visited| ==> answers[i] == web.post(visited[i], request)
  }

  lemma GetRunExactly(web: Web, endpoint: Endpoint, url: Uri)
    ensures var run := GetRun(web, endpoint, url); SteadilyGot(web, endpoint, url, run.visited, run.outcome)
  {
    var exchange, policy, run := (k: nat, u: Uri) => web.get(u), GetPolicy(endpoint, web.join), GetRun(web, endpoint, url);
    FollowIsRedirected(exchange, policy, 0, url);
    assert Redirected(Heard(exchange, 0, run.visited), policy, policy.limit, run.visited, run.outcome);
  }

  lemma PostRunExactly(web: Web, request: Request, endpoint: Endpoint, url: Uri)
    ensures var run := PostRun(web, request, endpoint, url); SteadilyPosted(web, request, endpoint, url, run.visited, run.outcome)
  {
    var exchange, policy, run := (k: nat, u: Uri) => web.post(u, request), PostPolicy(endpoint, web.join), PostRun(web, request, endpoint, url);
    FollowIsRedirected(exchange, policy, 0, url);
    assert Redirected(Heard(exchange, 0, run.visited), policy, policy.limit, run.visited, run.outcome);
  }

  /** The log entries of exchanges with these addresses. */
  ghost function SentTo(visited: seq<Uri>, authorization: Option<string>): (r: seq<Sent>)
    ensures |r| == |visited|
  {
    if visited == [] then []
    else SentTo(visited[..|visited| - 1], authorization) + [Sent(visited[|visited| - 1], authorization)]
  }

  lemma {:induction false} SentToAt(visited: seq<Uri>, authorization: Option<string>, i: nat)
    requires i < |visited|
    ensures SentTo(visited, authorization)[i] == Sent(visited[i], authorization)
    decreases |visited|
  {
    if i < |visited| - 1 {
      SentToAt(visited[..|visited| - 1], authorization, i);
    }
  }

  lemma SentToSnoc(before: seq<Sent>, visited: seq<Uri>, uri: Uri, authorization: Option<string>)
    ensures before + SentTo(visited + [uri], authorization)
            == before + SentTo(visited, authorization) + [Sent(uri, authorization)]
  {
    assert (visited + [uri])[..|visited|] == visited;
  }

  /** Where a loop stands on its way through `run`: it has visited `seen`, and the
      log shows exactly that. */
  ghost predicate Underway(exchange: (nat, Uri) -> Result<Response, TransportError>, policy: Policy, run: Run,
                           before: seq<Sent>, log: seq<Sent>, authorization: Option<string>, seen: seq<Uri>, followed: nat, current: Uri)
  {
    var rest := Follow(exchange, policy, followed, current);
    && |seen| == followed
    && log == before + SentTo(seen, authorization)
    && run.visited == seen + rest.visited
    && run.outcome == rest.outcome
  }

  lemma Embark(exchange: (nat, Uri) -> Result<Response, TransportError>, policy: Policy, before: seq<Sent>,
               authorization: Option<string>, start: Uri)
    ensures Underway(exchange, policy, Follow(exchange, policy, 0, start), before, before, authorization, [], 0, start)
  {
    var run := Follow(exchange, policy, 0, start);
    assert before + SentTo([], authorization) == before && [] + run.visited == run.visited;
  }

  ghost predicate Finished(run: Run, before: seq<Sent>, log: seq<Sent>, authorization: Option<string>, r: Result<seq<byte>, HttpError>) {
    log == before + SentTo(run.visited, authorization) && r == run.outcome
  }

  /** A turn of the loop either goes on or ends exactly as the run does, and so does
      a loop without a turn left. */
  lemma TurnIsLogged(exchange: (nat, Uri) -> Result<Response, TransportError>, policy: Policy, run: Run,
                     before: seq<Sent>, log: seq<Sent>, authorization: Option<string>, seen: seq<Uri>, followed: nat, current: Uri)
    requires Underway(exchange, policy, run, before, log, authorization, seen, followed, current)
    ensures |log| == |before| + followed
    ensures followed > policy.limit ==> Finished(run, before, log, authorization, Err(RedirectLoop))
    ensures followed <= policy.limit ==>
              var step := Decide(exchange(followed, current), policy, followed, current);
              var longer := log + [Sent(current, authorization)];
              && (step.Stop? ==> Finished(run, before, longer, authorization, step.outcome))
              && (step.Hop? ==> Underway(exchange, policy, run, before, longer, authorization, seen + [current], followed + 1, step.next))
  {
    if followed <= policy.limit {
      FollowUnfolds(exchange, policy, followed, current, seen);
      SentToSnoc(before, seen, current, authorization);
    } else {
      assert seen + [] == seen;
    }
  }

  /** The client's side of the wire; `log` records every exchange made and
      `requests` every GET or POST asked for. */
  class Client {
    const network: Network
    var log: seq<Sent>
    ghost var requests: nat

    constructor (network: Network)
      ensures this.network == network && log == [] && requests == 0
    {
      this.network := network;
      log, requests := [], 0;
    }

    /** The loop of both requests. */
    method FollowRedirects(exchange: (nat, Uri) -> Result<Response, TransportError>, policy: Policy, url: Uri,
                           authorization: Option<string>) returns (r: Result<seq<byte>, HttpError>)
      modifies this`log
      ensures Finished(Follow(exchange, policy, 0, url), old(log), log, authorization, r)
    {
      var current, followed := url, 0;
      ghost var run := Follow(exchange, policy, 0, url);
      ghost var seen: seq<Uri> := [];
      Embark(exchange, policy, log, authorization, url);
      while followed <= policy.limit
        invariant Underway(exchange, policy, run, old(log), log, authorization, seen, followed, current)
        decreases policy.limit + 1 - followed
      {
        TurnIsLogged(exchange, policy, run, old(log), log, authorization, seen, followed, current);
        var answer := exchange(followed, current);
        log, seen := log + [Sent(current, authorization)], seen + [current];
        var step := Decide(answer, policy, followed, current);
        if step.Stop? {
          return step.outcome;
        }
        current, followed := step.next, followed + 1;
      }
      TurnIsLogged(exchange, policy, run, old(log), log, authorization, seen, followed, current);
      r := Err(RedirectLoop);
    }

    method GetFor(url: Uri, endpoint: Endpoint) returns (r: Result<seq<byte>, HttpError>)
      modifies this
      ensures requests == old(requests) + 1
      ensures Finished(LiveGet(network, |old(log)|, endpoint, url), old(log), log, None, r)
      ensures exists visited :: Got(network, old(log), log, endpoint, url, r, visited)
    {
      requests := requests + 1;
      r := FollowRedirects(Gets(network, |log|), GetPolicy(endpoint, network.join), url, None);
      LiveGetIsGot(network, old(log), log, endpoint, url, r);
    }

    method PostFor(url: Uri, request: Request, endpoint: Endpoint) returns (r: Result<seq<byte>, HttpError>)
      modifies this
      ensures requests == old(requests) + 1
      ensures Finished(LivePost(network, |old(log)|, request, endpoint, url), old(log), log, request.authorization, r)
      ensures exists visited :: Posted(network, old(log), log, request, endpoint, url, r, visited)
    {
      requests := requests + 1;
      r := FollowRedirects(Posts(network, |log|, request), PostPolicy(endpoint, network.join), url, request.authorization);
      LivePostIsPosted(network, old(log), log, request, endpoint, url, r);
    }

    /** A configured timestamp authority.  Every exchange of a run that carries an
        authorization value goes to the scheme, host and port the caller named. */
    method PostAuthority(url: Uri, request: Request) returns (r: Result<seq<byte>, HttpError>)
      modifies this
      ensures request.authorization.Some? && url.scheme != Https ==> r == Err(InsecureCredentials) && log == old(log)
      ensures !(request.authorization.Some? && url.scheme != Https) ==>
                exists visited :: Posted(network, old(log), log, request, Authority, url, r, visited)
      ensures old(log) <= log && |log| <= |old(log)| + 2
      ensures forall i :: |old(log)| <= i < |log| ==>
                && log[i].authorization == request.authorization
                && log[i].uri.host == url.host
                && (request.authorization.Some? ==> url.scheme == Https && SameOrigin(url, log[i].uri))
      ensures r != Err(RedirectLoop)
    {
      if request.authorization.Some? && url.scheme != Https {
        return Err(InsecureCredentials);
      }
      ghost var base := |log|;
      r := PostFor(url, request, Authority);
      RedirectRun(Posts(network, base, request), PostPolicy(Authority, network.join), url);
      ghost var visited := LivePost(network, base, request, Authority, url).visited;
      assert forall j :: 0 < j < |visited| ==> visited[0].host == visited[j].host;
      assert request.authorization.Some? ==> forall j :: 0 < j < |visited| ==> SameOrigin(visited[0], visited[j]);
      forall i | |old(log)| <= i < |log|
        ensures log[i] == Sent(visited[i - |old(log)|], request.authorization)
      {
        SentToAt(visited, request.authorization, i - |old(log)|);
      }
    }
  }
}
