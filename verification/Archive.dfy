/** Assembly of a long-term document signature: which timestamps it keeps, which
    evidence it embeds, and which outer archive token it accepts. */
module Archive {
  import opened Basics
  import opened Http
  import opened Certificates
  import opened PathBuilder
  import opened PathSoundness
  import opened EvidenceStore
  import opened ChainCollector
  import opened StoreParts

  /** A timestamp token whose signature, digest and nonce have been verified. */
  datatype Token = Token(signer: Der, embedded: seq<Der>, generatedAt: int, octets: seq<byte>)

  datatype SignError = Timestamp | SignerMaterial(cause: MaterialError)

  // ----- one token

  function SelfIssued(env: Env, ders: seq<Der>): seq<Der> {
    if ders == [] then []
    else
      (if env.parse(ders[0]).Some? && env.parse(ders[0]).value.issuer == env.parse(ders[0]).value.subject then [ders[0]] else [])
      + SelfIssued(env, ders[1..])
  }

  /** Where a token's path may stop: its self-issued certificates, or else any of them. */
  function EmbeddedAnchors(env: Env, token: Token): seq<Der> {
    var selfIssued := SelfIssued(env, token.embedded);
    if selfIssued == [] then token.embedded else selfIssued
  }

  function TokenCandidates(token: Token): seq<Der> {
    MergeUnique([], [token.signer] + token.embedded)
  }

  function TokenPath(env: Env, token: Token): Climbed {
    Path(env, token.generatedAt, EmbeddedAnchors(env, token), TokenCandidates(token), token.signer)
  }

  function TokenStart(env: Env, token: Token): ChainStart {
    ChainStart(token.signer, token.generatedAt, EmbeddedAnchors(env, token), AllowMissingEcho, true, true)
  }

  function TokenMaterial(env: Env, token: Token, now: int): Result<Material, MaterialError> {
    if EmbeddedAnchors(env, token) == [] then Err(NoTrustAnchor)
    else Collect(env, [TokenStart(env, token)], token.embedded, now)
  }

  predicate Covered(path: seq<Der>, store: Material) {
    path != [] && forall d :: d in path ==> d in store.certificates
  }

  /** The acceptance gate for an outer token. */
  predicate Gate(env: Env, token: Token, store: Material, now: int) {
    && TokenPath(env, token).failure.None?
    && Covered(TokenPath(env, token).chain, store)
    && TokenMaterial(env, token, now).Ok?
  }

  /** A sound path for the token, from its signer to an anchor it carries. */
  ghost predicate TokenPathSound(env: Env, token: Token, path: seq<Der>) {
    SoundPath(env, token.generatedAt, EmbeddedAnchors(env, token), path) && path[0] == token.signer
  }

  /** The whole of such a path is in the store, byte for byte. */
  ghost predicate TokenCovered(env: Env, token: Token, store: Material) {
    exists path :: TokenPathSound(env, token, path) && Covered(path, store)
  }

  /** The whole of a sound path, with evidence judged good at `now` for its links. */
  ghost predicate TokenPart(env: Env, token: Token, now: int, part: Part) {
    && TokenPathSound(env, token, part.path) && part.retained == part.path
    && part.policy == AllowMissingEcho && part.now == now
  }

  method EmbeddedTimestampPath(env: Env, client: Client, token: Token) returns (r: Result<seq<Der>, MaterialError>)
    modifies client
    ensures r.Ok? ==> TokenPathSound(env, token, r.value)
    ensures Steady(client.network, env.web) ==>
              var p := TokenPath(env, token); r == if p.failure.None? then Ok(p.chain) else Err(p.failure.value)
  {
    var anchors := EmbeddedAnchors(env, token);
    if anchors == [] {
      return Err(NoTrustAnchor);
    }
    var collection := new Collection();
    collection.PushCandidate(token.signer);
    PushCandidates(collection, token.embedded);
    MergeUniqueConcat([], [token.signer], token.embedded);
    MergeUniqueSnoc([], [], token.signer);
    assert [] + [token.signer] == [token.signer];
    r := VerifyChain(env, client, token.signer, token.generatedAt, anchors, collection);
  }

  method TimestampValidationMaterial(env: Env, client: Client, token: Token, now: int)
      returns (r: Result<Material, MaterialError>, ghost part: Part)
    modifies client
    ensures r.Ok? ==> TokenPart(env, token, now, part) && ExactFor(env, [part], r.value)
    ensures Steady(client.network, env.web) ==> r == TokenMaterial(env, token, now)
  {
    part := Part(AllowMissingEcho, now, [], []);
    var anchors := EmbeddedAnchors(env, token);
    if anchors == [] {
      return Err(NoTrustAnchor), part;
    }
    ghost var paths;
    r, paths := CollectChains(env, client, [TokenStart(env, token)], token.embedded, now);
    if r.Ok? {
      part := Part(AllowMissingEcho, now, paths[0], paths[0]);
      RetainedWhole(paths[0]);
      CollectedIsExact(env, TokenStart(env, token), now, paths, r.value, paths[0]);
    }
  }

  /** The acceptance gate.  Whatever is served, an accepted token has a sound path
      that the store holds whole. */
  method AuthenticateArchiveTimestamp(env: Env, client: Client, token: Token, store: Material, now: int)
      returns (accepted: bool)
    modifies client
    ensures accepted ==> TokenCovered(env, token, store)
    ensures Steady(client.network, env.web) ==> (accepted <==> Gate(env, token, store, now))
  {
    var path := EmbeddedTimestampPath(env, client, token);
    if path.Err? || !Covered(path.value, store) {
      return false;
    }
    var evidence, part := TimestampValidationMaterial(env, client, token, now);
    accepted := evidence.Ok?;
  }

  // ----- the inner timestamps

  /** The complete evidence for authority `i`'s answer, if there is any at the
      moment it is collected. */
  function Evidence(env: Env, answers: seq<Option<Token>>, clock: nat -> int): nat -> Option<Material> {
    (i: nat) =>
      if i < |answers| && answers[i].Some? && TokenMaterial(env, answers[i].value, clock(i)).Ok?
      then Some(TokenMaterial(env, answers[i].value, clock(i)).value) else None
  }

  predicate KeptAnswer(keepMaterial: bool, answers: seq<Option<Token>>, evidence: nat -> Option<Material>, i: nat)
    requires i < |answers|
  {
    answers[i].Some? && (keepMaterial ==> evidence(i).Some?)
  }

  function KeptTokens(keepMaterial: bool, answers: seq<Option<Token>>, evidence: nat -> Option<Material>, n: nat): seq<Token>
    requires n <= |answers|
  {
    if n == 0 then []
    else
      KeptTokens(keepMaterial, answers, evidence, n - 1)
      + if KeptAnswer(keepMaterial, answers, evidence, n - 1) then [answers[n - 1].value] else []
  }

  function KeptMaterial(evidence: nat -> Option<Material>, n: nat): Material {
    if n == 0 then EMPTY
    else
      match evidence(n - 1)
      case Some(m) => Merge(KeptMaterial(evidence, n - 1), m)
      case None => KeptMaterial(evidence, n - 1)
  }

  datatype Timestamps = Timestamps(tokens: seq<Token>, material: Material)

  function CollectedTimestamps(env: Env, keepMaterial: bool, answers: seq<Option<Token>>, clock: nat -> int): Result<Timestamps, SignError> {
    var evidence := Evidence(env, answers, clock);
    var tokens := KeptTokens(keepMaterial, answers, evidence, |answers|);
    if (answers != [] || keepMaterial) && tokens == [] then Err(Timestamp)
    else Ok(Timestamps(tokens, if keepMaterial then KeptMaterial(evidence, |answers|) else EMPTY))
  }

  /** The kept tokens are the answers numbered `from`, in order. */
  ghost predicate KeptInOrder(answers: seq<Option<Token>>, tokens: seq<Token>, from: seq<nat>) {
    && |from| == |tokens|
    && (forall j :: 0 <= j < |from| ==> from[j] < |answers| && answers[from[j]] == Some(tokens[j]))
    && (forall a, b :: 0 <= a < b < |from| ==> from[a] < from[b])
  }

  /** Part by part, the store is the evidence of these tokens and nothing else. */
  ghost predicate TokensFrozen(env: Env, tokens: seq<Token>, from: seq<nat>, clock: nat -> int, parts: seq<Part>) {
    && |parts| == |tokens| == |from|
    && forall j :: 0 <= j < |tokens| ==> TokenPart(env, tokens[j], clock(from[j]), parts[j])
  }

  /** What is collected from the first `n` answers: tokens in their order, all of them
      when no evidence is wanted; otherwise a store that is exactly their evidence. */
  ghost predicate Collected(env: Env, keepMaterial: bool, answers: seq<Option<Token>>, clock: nat -> int, n: nat,
                            tokens: seq<Token>, material: Material, from: seq<nat>, parts: seq<Part>)
    requires n <= |answers|
  {
    && KeptInOrder(answers, tokens, from)
    && (forall j :: 0 <= j < |from| ==> from[j] < n)
    && if keepMaterial then TokensFrozen(env, tokens, from, clock, parts) && ExactFor(env, parts, material)
       else material == EMPTY && forall k :: 0 <= k < n && answers[k].Some? ==> k in from
  }

  lemma CollectedNothing(env: Env, keepMaterial: bool, answers: seq<Option<Token>>, clock: nat -> int)
    ensures Collected(env, keepMaterial, answers, clock, 0, [], EMPTY, [], [])
  {
    EmptyIsExact(env);
  }

  lemma CollectedSkip(env: Env, keepMaterial: bool, answers: seq<Option<Token>>, clock: nat -> int, n: nat,
                      tokens: seq<Token>, material: Material, from: seq<nat>, parts: seq<Part>)
    requires n < |answers| && Collected(env, keepMaterial, answers, clock, n, tokens, material, from, parts)
    requires keepMaterial || answers[n].None?
    ensures Collected(env, keepMaterial, answers, clock, n + 1, tokens, material, from, parts)
  {
  }

  lemma KeepOne(answers: seq<Option<Token>>, tokens: seq<Token>, from: seq<nat>, n: nat)
    requires n < |answers| && answers[n].Some? && KeptInOrder(answers, tokens, from)
    requires forall j :: 0 <= j < |from| ==> from[j] < n
    ensures KeptInOrder(answers, tokens + [answers[n].value], from + [n])
    ensures forall j :: 0 <= j < |from + [n]| ==> (from + [n])[j] < n + 1
  {
  }

  lemma CollectedBare(env: Env, answers: seq<Option<Token>>, clock: nat -> int, n: nat, tokens: seq<Token>, from: seq<nat>, parts: seq<Part>)
    requires n < |answers| && answers[n].Some? && Collected(env, false, answers, clock, n, tokens, EMPTY, from, parts)
    ensures Collected(env, false, answers, clock, n + 1, tokens + [answers[n].value], EMPTY, from + [n], parts)
  {
    KeepOne(answers, tokens, from, n);
    assert (from + [n])[|from|] == n;
  }

  lemma CollectedFrozen(env: Env, answers: seq<Option<Token>>, clock: nat -> int, n: nat, tokens: seq<Token>, material: Material,
                        from: seq<nat>, parts: seq<Part>, part: Part, evidence: Material)
    requires n < |answers| && answers[n].Some? && Collected(env, true, answers, clock, n, tokens, material, from, parts)
    requires TokenPart(env, answers[n].value, clock(n), part) && ExactFor(env, [part], evidence)
    ensures Collected(env, true, answers, clock, n + 1, tokens + [answers[n].value], Merge(material, evidence), from + [n], parts + [part])
  {
    KeepOne(answers, tokens, from, n);
    MergeIsExact(env, parts, material, [part], evidence);
    forall j | 0 <= j < |tokens| + 1
      ensures TokenPart(env, (tokens + [answers[n].value])[j], clock((from + [n])[j]), (parts + [part])[j])
    {
      if j < |tokens| {
        assert TokenPart(env, tokens[j], clock(from[j]), parts[j]);
      }
    }
  }

  /** The same when servers are steady: exactly the described tokens and store. */
  ghost predicate AsDescribed(env: Env, keepMaterial: bool, answers: seq<Option<Token>>, clock: nat -> int, n: nat,
                              tokens: seq<Token>, material: Material)
    requires n <= |answers|
  {
    var evidences := Evidence(env, answers, clock);
    && tokens == KeptTokens(keepMaterial, answers, evidences, n)
    && material == if keepMaterial then KeptMaterial(evidences, n) else EMPTY
  }

  lemma DescribedStep(env: Env, keepMaterial: bool, answers: seq<Option<Token>>, clock: nat -> int, n: nat,
                      tokens: seq<Token>, material: Material)
    requires n < |answers| && AsDescribed(env, keepMaterial, answers, clock, n, tokens, material)
    ensures answers[n].None? ==> AsDescribed(env, keepMaterial, answers, clock, n + 1, tokens, material)
    ensures answers[n].Some? ==>
              var evidence := TokenMaterial(env, answers[n].value, clock(n));
              if keepMaterial && evidence.Err?
              then AsDescribed(env, keepMaterial, answers, clock, n + 1, tokens, material)
              else
                AsDescribed(env, keepMaterial, answers, clock, n + 1, tokens + [answers[n].value],
                            if keepMaterial then Merge(material, evidence.value) else material)
  {
  }

  method CollectDocumentTimestamps(env: Env, client: Client, keepMaterial: bool, answers: seq<Option<Token>>, clock: nat -> int)
      returns (r: Result<Timestamps, SignError>, ghost from: seq<nat>, ghost parts: seq<Part>)
    modifies client
    ensures r.Ok? ==> Collected(env, keepMaterial, answers, clock, |answers|, r.value.tokens, r.value.material, from, parts)
    ensures r.Ok? && r.value.tokens == [] ==> answers == [] && !keepMaterial
    ensures r.Err? ==> r.error == Timestamp && (keepMaterial || (answers != [] && forall k :: 0 <= k < |answers| ==> answers[k].None?))
    ensures !keepMaterial ==> client.log == old(client.log)
    ensures Steady(client.network, env.web) ==> r == CollectedTimestamps(env, keepMaterial, answers, clock)
  {
    var tokens: seq<Token>, material := [], EMPTY;
    from, parts := [], [];
    CollectedNothing(env, keepMaterial, answers, clock);
    for i := 0 to |answers|
      invariant Collected(env, keepMaterial, answers, clock, i, tokens, material, from, parts)
      invariant !keepMaterial ==> client.log == old(client.log)
      invariant Steady(client.network, env.web) ==> AsDescribed(env, keepMaterial, answers, clock, i, tokens, material)
    {
      if Steady(client.network, env.web) {
        DescribedStep(env, keepMaterial, answers, clock, i, tokens, material);
      }
      if answers[i].None? {
        CollectedSkip(env, keepMaterial, answers, clock, i, tokens, material, from, parts);
        continue;
      }
      var token := answers[i].value;
      if keepMaterial {
        var evidence, part := TimestampValidationMaterial(env, client, token, clock(i));
        if evidence.Err? {
          CollectedSkip(env, keepMaterial, answers, clock, i, tokens, material, from, parts);
          continue;
        }
        CollectedFrozen(env, answers, clock, i, tokens, material, from, parts, part, evidence.value);
        material := MergeMaterial(material, evidence.value);
        parts := parts + [part];
      } else {
        CollectedBare(env, answers, clock, i, tokens, from, parts);
      }
      tokens, from := tokens + [token], from + [i];
    }
    if (answers != [] || keepMaterial) && tokens == [] {
      return Err(Timestamp), from, parts;
    }
    r := Ok(Timestamps(tokens, material));
  }

  // ----- the outer token

  predicate GateAt(env: Env, answers: seq<Option<Token>>, store: Material, clock: nat -> int, base: nat, i: nat)
    requires i < |answers|
  {
    answers[i].Some? && Gate(env, answers[i].value, store, clock(base + i))
  }

  /** For each of the first `n` outer answers: it is there and passes the gate. */
  function Verdicts(env: Env, answers: seq<Option<Token>>, store: Material, clock: nat -> int, base: nat, n: nat): (r: seq<bool>)
    requires n <= |answers|
    ensures |r| == n
  {
    if n == 0 then []
    else
      Verdicts(env, answers, store, clock, base, n - 1)
      + [GateAt(env, answers, store, clock, base, n - 1)]
  }

  lemma {:induction false} VerdictAt(env: Env, answers: seq<Option<Token>>, store: Material, clock: nat -> int, base: nat, n: nat, i: nat)
    requires i < n <= |answers|
    ensures Verdicts(env, answers, store, clock, base, n)[i] == GateAt(env, answers, store, clock, base, i)
    decreases n
  {
    if i < n - 1 {
      VerdictAt(env, answers, store, clock, base, n - 1, i);
    }
  }

  function FirstTrue(verdicts: seq<bool>, i: nat): Option<nat>
    requires i <= |verdicts|
    decreases |verdicts| - i
  {
    if i == |verdicts| then None else if verdicts[i] then Some(i) else FirstTrue(verdicts, i + 1)
  }

  function Gates(env: Env, answers: seq<Option<Token>>, store: Material, clock: nat -> int, base: nat): (r: seq<bool>)
    ensures |r| == |answers|
  {
    Verdicts(env, answers, store, clock, base, |answers|)
  }

  method FirstAnsweringToken(env: Env, client: Client, answers: seq<Option<Token>>, store: Material, clock: nat -> int, base: nat)
      returns (r: Result<nat, SignError>)
    modifies client
    ensures r.Ok? ==> r.value < |answers| && answers[r.value].Some? && TokenCovered(env, answers[r.value].value, store)
    ensures r.Err? ==> r.error == Timestamp
    ensures Steady(client.network, env.web) ==>
              var first := FirstTrue(Gates(env, answers, store, clock, base), 0);
              r == if first.Some? then Ok(first.value) else Err(Timestamp)
  {
    ghost var gates := Gates(env, answers, store, clock, base);
    for i := 0 to |answers|
      invariant Steady(client.network, env.web) ==> FirstTrue(gates, 0) == FirstTrue(gates, i)
    {
      VerdictAt(env, answers, store, clock, base, |answers|, i);
      if answers[i].Some? {
        var accepted := AuthenticateArchiveTimestamp(env, client, answers[i].value, store, clock(base + i));
        if accepted {
          return Ok(i);
        }
      }
    }
    r := Err(Timestamp);
  }

  // ----- the whole document

  datatype DocumentRequest = DocumentRequest(longTerm: bool, archive: bool)

  datatype Document = Document(tokens: seq<Token>, material: Material, outer: Option<Token>, reportedTokens: nat)

  predicate RequiresLongTermMaterial(request: DocumentRequest) {
    request.longTerm || request.archive
  }

  function Earliest(tokens: seq<Token>, otherwise: int): int {
    if tokens == [] then otherwise
    else if |tokens| == 1 then tokens[0].generatedAt
    else
      var rest := Earliest(tokens[..|tokens| - 1], otherwise);
      if tokens[|tokens| - 1].generatedAt < rest then tokens[|tokens| - 1].generatedAt else rest
  }

  /** The signer's reference time is the earliest kept timestamp. */
  lemma {:induction false} EarliestIsMinimum(tokens: seq<Token>, otherwise: int)
    requires tokens != []
    ensures exists i :: 0 <= i < |tokens| && tokens[i].generatedAt == Earliest(tokens, otherwise)
    ensures forall i :: 0 <= i < |tokens| ==> Earliest(tokens, otherwise) <= tokens[i].generatedAt
    decreases |tokens|
  {
    var last := |tokens| - 1;
    assert Earliest(tokens, otherwise) == tokens[last].generatedAt || last > 0;
    if last > 0 {
      var rest := tokens[..last];
      EarliestIsMinimum(rest, otherwise);
      var i :| 0 <= i < |rest| && rest[i].generatedAt == Earliest(rest, otherwise);
      assert tokens[i] == rest[i] && tokens[last].generatedAt == tokens[last].generatedAt;
      assert forall j :: 0 <= j < last ==> tokens[j] == rest[j];
    } else {
      assert tokens[0].generatedAt == Earliest(tokens, otherwise);
    }
  }

  function SignerStart(signer: Der, roots: seq<Der>, tokens: seq<Token>, otherwise: int): ChainStart {
    ChainStart(signer, Earliest(tokens, otherwise), roots, RequireEcho, false, false)
  }

  /** Collections of evidence before the outer ones: one for each inner answer and
      one for the signer. */
  function OuterBase(inner: seq<Option<Token>>): nat {
    |inner| + 1
  }

  /** Everything before the outer token: the kept timestamps and the store, with the
      signer's evidence at the time of the earliest of them. */
  function Prepared(env: Env, keep: bool, inner: seq<Option<Token>>, signer: Der, roots: seq<Der>, clock: nat -> int)
      : Result<Timestamps, SignError>
  {
    match CollectedTimestamps(env, keep, inner, clock)
    case Err(e) => Err(e)
    case Ok(stamps) =>
      if !keep then Ok(Timestamps(stamps.tokens, EMPTY))
      else
        match Collect(env, [SignerStart(signer, roots, stamps.tokens, clock(|inner|))], [], clock(|inner|))
        case Err(cause) => Err(SignerMaterial(cause))
        case Ok(own) => Ok(Timestamps(stamps.tokens, Merge(stamps.material, own)))
  }

  /** From there on: the document as it stands, or with the first outer answer that
      passes the gate. */
  function Finish(env: Env, archive: bool, ready: Timestamps, outer: seq<Option<Token>>, clock: nat -> int, base: nat)
      : Result<Document, SignError>
  {
    if !archive then Ok(Document(ready.tokens, ready.material, None, |ready.tokens|))
    else
      match FirstTrue(Gates(env, outer, ready.material, clock, base), 0)
      case Some(k) => Ok(Document(ready.tokens, ready.material, if k < |outer| then outer[k] else None, |ready.tokens| + 1))
      case None => Err(Timestamp)
  }

  /** `inner` and `outer` are the authorities' answers to the two rounds of queries,
      `clock` the time read at each collection of evidence. */
  function Assembled(env: Env, request: DocumentRequest, inner: seq<Option<Token>>, outer: seq<Option<Token>>,
                     signer: Der, roots: seq<Der>, clock: nat -> int): Result<Document, SignError>
  {
    match Prepared(env, RequiresLongTermMaterial(request), inner, signer, roots, clock)
    case Err(e) => Err(e)
    case Ok(ready) => Finish(env, request.archive, ready, outer, clock, OuterBase(inner))
  }

  /** The part the signer adds: its sound path at the time of the earliest kept
      timestamp, leaf and anchor left out, status answered with our nonce echoed. */
  ghost predicate SignerPart(env: Env, signer: Der, roots: seq<Der>, tokens: seq<Token>, now: int, part: Part) {
    && part.policy == RequireEcho && part.now == now
    && part.path != [] && part.path[0] == signer && part.retained == Retained(part.path, false, false)
    && exists i :: 0 <= i < |tokens| && SoundPath(env, tokens[i].generatedAt, roots, part.path)
                   && forall j :: 0 <= j < |tokens| ==> tokens[i].generatedAt <= tokens[j].generatedAt
  }

  /** What is ready before the outer token, whatever was served.  Tokens are inner
      answers in their order: without long-term material all of them, and an empty
      store; with it at least one, and a store that is exactly their evidence and the
      signer's. */
  ghost predicate Ready(env: Env, keep: bool, inner: seq<Option<Token>>, signer: Der, roots: seq<Der>, clock: nat -> int,
                        from: seq<nat>, parts: seq<Part>, tokens: seq<Token>, store: Material)
  {
    && KeptInOrder(inner, tokens, from)
    && (tokens == [] ==> inner == [])
    && (!keep ==> store == EMPTY && forall i :: 0 <= i < |inner| && inner[i].Some? ==> i in from)
    && (keep ==>
          && tokens != [] && |parts| == |tokens| + 1
          && TokensFrozen(env, tokens, from, clock, parts[..|tokens|])
          && SignerPart(env, signer, roots, tokens, clock(|inner|), parts[|tokens|])
          && ExactFor(env, parts, store))
  }

  lemma SignerAddsItsPart(env: Env, signer: Der, roots: seq<Der>, tokens: seq<Token>, now: int, paths: seq<seq<Der>>, own: Material)
    requires tokens != [] && |paths| == 1 && Holds(env, [SignerStart(signer, roots, tokens, now)], now, paths, own)
    ensures var part := Part(RequireEcho, now, paths[0], Retained(paths[0], false, false));
            SignerPart(env, signer, roots, tokens, now, part) && ExactFor(env, [part], own)
  {
    CollectedIsExact(env, SignerStart(signer, roots, tokens, now), now, paths, own, Retained(paths[0], false, false));
    EarliestIsMinimum(tokens, now);
  }

  lemma ReadyWithSigner(env: Env, inner: seq<Option<Token>>, signer: Der, roots: seq<Der>, clock: nat -> int, from: seq<nat>,
                        parts: seq<Part>, tokens: seq<Token>, material: Material, part: Part, own: Material)
    requires tokens != [] && Collected(env, true, inner, clock, |inner|, tokens, material, from, parts)
    requires SignerPart(env, signer, roots, tokens, clock(|inner|), part) && ExactFor(env, [part], own)
    ensures Ready(env, true, inner, signer, roots, clock, from, parts + [part], tokens, Merge(material, own))
  {
    MergeIsExact(env, parts, material, [part], own);
    assert (parts + [part])[..|tokens|] == parts;
  }

  /** The first half of assembly: timestamps, and the store they and the signer fill. */
  method PrepareDocument(env: Env, client: Client, keep: bool, inner: seq<Option<Token>>, signer: Der, roots: seq<Der>, clock: nat -> int)
      returns (r: Result<Timestamps, SignError>, ghost from: seq<nat>, ghost parts: seq<Part>)
    modifies client
    ensures r.Ok? ==> Ready(env, keep, inner, signer, roots, clock, from, parts, r.value.tokens, r.value.material)
    ensures !keep ==>
              && client.log == old(client.log)
              && (r.Err? ==> r.error == Timestamp && inner != [] && forall k :: 0 <= k < |inner| ==> inner[k].None?)
    ensures Steady(client.network, env.web) ==> r == Prepared(env, keep, inner, signer, roots, clock)
  {
    r, from, parts := CollectDocumentTimestamps(env, client, keep, inner, clock);
    if r.Err? || !keep {
      return;
    }
    var tokens := r.value.tokens;
    var own, paths := CollectChains(env, client, [SignerStart(signer, roots, tokens, clock(|inner|))], [], clock(|inner|));
    if own.Err? {
      return Err(SignerMaterial(own.error)), from, parts;
    }
    SignerAddsItsPart(env, signer, roots, tokens, clock(|inner|), paths, own.value);
    ghost var part := Part(RequireEcho, clock(|inner|), paths[0], Retained(paths[0], false, false));
    ReadyWithSigner(env, inner, signer, roots, clock, from, parts, tokens, r.value.material, part, own.value);
    var store := MergeMaterial(r.value.material, own.value);
    r, parts := Ok(Timestamps(tokens, store)), parts + [part];
  }

  /** What finishing adds, whatever was served: an outer token exactly if asked for,
      covered by the store and counted. */
  ghost predicate Completes(env: Env, archive: bool, ready: Timestamps, outer: seq<Option<Token>>, doc: Document) {
    && doc.tokens == ready.tokens && doc.material == ready.material
    && (archive <==> doc.outer.Some?)
    && (archive ==> doc.outer in outer && TokenCovered(env, doc.outer.value, doc.material))
    && doc.reportedTokens == |doc.tokens| + if archive then 1 else 0
  }

  method FinishDocument(env: Env, client: Client, archive: bool, ready: Timestamps, outer: seq<Option<Token>>, clock: nat -> int, base: nat)
      returns (r: Result<Document, SignError>)
    modifies client
    ensures r.Ok? ==> Completes(env, archive, ready, outer, r.value)
    ensures r.Err? ==> archive && r.error == Timestamp
    ensures !archive ==> client.log == old(client.log)
    ensures Steady(client.network, env.web) ==> r == Finish(env, archive, ready, outer, clock, base)
  {
    if !archive {
      return Ok(Document(ready.tokens, ready.material, None, |ready.tokens|));
    }
    var first := FirstAnsweringToken(env, client, outer, ready.material, clock, base);
    if first.Err? {
      return Err(first.error);
    }
    r := Ok(Document(ready.tokens, ready.material, outer[first.value], |ready.tokens| + 1));
  }

  /** What an assembled document holds, whatever was served. */
  ghost predicate Embeds(env: Env, request: DocumentRequest, inner: seq<Option<Token>>, outer: seq<Option<Token>>, signer: Der,
                         roots: seq<Der>, clock: nat -> int, from: seq<nat>, parts: seq<Part>, doc: Document)
  {
    && Ready(env, request.longTerm || request.archive, inner, signer, roots, clock, from, parts, doc.tokens, doc.material)
    && Completes(env, request.archive, Timestamps(doc.tokens, doc.material), outer, doc)
  }

  lemma EmbedsIf(env: Env, request: DocumentRequest, inner: seq<Option<Token>>, outer: seq<Option<Token>>, signer: Der,
                 roots: seq<Der>, clock: nat -> int, from: seq<nat>, parts: seq<Part>, ready: Timestamps, doc: Document)
    ensures Ready(env, RequiresLongTermMaterial(request), inner, signer, roots, clock, from, parts, ready.tokens, ready.material)
            && Completes(env, request.archive, ready, outer, doc) ==>
              Embeds(env, request, inner, outer, signer, roots, clock, from, parts, doc)
  {
  }

  method AssembleDocument(env: Env, client: Client, request: DocumentRequest, inner: seq<Option<Token>>,
                          outer: seq<Option<Token>>, signer: Der, roots: seq<Der>, clock: nat -> int)
      returns (r: Result<Document, SignError>, ghost from: seq<nat>, ghost parts: seq<Part>)
    modifies client
    ensures r.Ok? ==> Embeds(env, request, inner, outer, signer, roots, clock, from, parts, r.value)
    ensures !request.longTerm && !request.archive ==>
              && client.log == old(client.log)
              && (r.Err? ==> r.error == Timestamp && inner != [] && forall k :: 0 <= k < |inner| ==> inner[k].None?)
    ensures Steady(client.network, env.web) ==> r == Assembled(env, request, inner, outer, signer, roots, clock)
  {
    var ready;
    ready, from, parts := PrepareDocument(env, client, RequiresLongTermMaterial(request), inner, signer, roots, clock);
    if ready.Err? {
      return Err(ready.error), from, parts;
    }
    r := FinishDocument(env, client, request.archive, ready.value, outer, clock, OuterBase(inner));
    if r.Ok? {
      EmbedsIf(env, request, inner, outer, signer, roots, clock, from, parts, ready.value, r.value);
    }
  }
}
