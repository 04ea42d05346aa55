/** The two path loops.  `VerifyChain` authenticates a path; `Walk` authenticates one
    and freezes revocation evidence for it in a collection.  What they guarantee
    whatever they are served stands beside what they do when servers are steady,
    which is stated against `PathBuilder.Path`. */
module ChainCollector {
  import opened Basics
  import opened Http
  import opened Certificates
  import opened RevocationStatus
  import opened PathBuilder
  import opened PathSoundness
  import opened EvidenceStore

  /** One path to preserve, with the anchors that authorize exactly that path. */
  datatype ChainStart = ChainStart(leaf: Der, referenceTime: int, anchors: seq<Der>, policy: NoncePolicy,
                                   includeLeaf: bool, includeAnchor: bool)

  // ----- what a walk adds to the collection, as functions of the path

  /** The status query the walk makes for one child-to-issuer link. */
  function LinkStatus(env: Env, policy: NoncePolicy, now: int, child: Der, issuer: Der): Result<StatusEvidence, MaterialError> {
    if env.parse(child).Some? && env.parse(issuer).Some?
    then StatusOf(env, policy, env.parse(child).value, env.parse(issuer).value, now)
    else Err(BadCertificate)
  }

  function FirstStatusFailure(env: Env, policy: NoncePolicy, now: int, chain: seq<Der>): Option<MaterialError> {
    if |chain| < 2 then None
    else
      match LinkStatus(env, policy, now, chain[0], chain[1])
      case Err(e) => Some(e)
      case Ok(_) => FirstStatusFailure(env, policy, now, chain[1..])
  }

  ghost predicate LinksHaveStatus(env: Env, policy: NoncePolicy, now: int, chain: seq<Der>) {
    forall i :: 0 <= i < |chain| - 1 ==> LinkStatus(env, policy, now, chain[i], chain[i + 1]).Ok?
  }

  lemma {:induction false} FirstStatusFailureSkips(env: Env, policy: NoncePolicy, now: int, chain: seq<Der>, k: nat)
    requires k < |chain|
    requires LinksHaveStatus(env, policy, now, chain[..k + 1])
    ensures FirstStatusFailure(env, policy, now, chain) == FirstStatusFailure(env, policy, now, chain[k..])
    decreases k
  {
    if k > 0 {
      var shorter := chain[..k + 1];
      assert shorter[0] == chain[0] && shorter[1] == chain[1];
      forall i | 0 <= i < |chain[1..][..k]| - 1
        ensures LinkStatus(env, policy, now, chain[1..][..k][i], chain[1..][..k][i + 1]).Ok?
      {
        assert chain[1..][..k][i] == shorter[i + 1] && chain[1..][..k][i + 1] == shorter[i + 2];
      }
      FirstStatusFailureSkips(env, policy, now, chain[1..], k - 1);
      assert chain[1..][k - 1..] == chain[k..];
    }
  }

  lemma {:induction false} NoStatusFailureMeansAll(env: Env, policy: NoncePolicy, now: int, chain: seq<Der>)
    requires chain != []
    ensures FirstStatusFailure(env, policy, now, chain).None? <==> LinksHaveStatus(env, policy, now, chain)
    decreases |chain|
  {
    if |chain| >= 2 {
      var rest := chain[1..];
      NoStatusFailureMeansAll(env, policy, now, rest);
      assert forall i :: 1 <= i < |chain| - 1 ==> chain[i] == rest[i - 1] && chain[i + 1] == rest[i];
      if LinksHaveStatus(env, policy, now, chain) {
        forall i | 0 <= i < |rest| - 1
          ensures LinkStatus(env, policy, now, rest[i], rest[i + 1]).Ok?
        {
          assert LinkStatus(env, policy, now, chain[i + 1], chain[i + 2]).Ok?;
        }
      }
    }
  }

  /** The status answers along a chain, added in order. */
  function AddEvidence(env: Env, policy: NoncePolicy, now: int, m: Material, chain: seq<Der>): Material
    decreases |chain|
  {
    if |chain| < 2 then m
    else
      var before := AddEvidence(env, policy, now, m, chain[..|chain| - 1]);
      match LinkStatus(env, policy, now, chain[|chain| - 2], chain[|chain| - 1])
      case Ok(evidence) => AddStatus(before, evidence)
      case Err(_) => before
  }

  function PathOf(env: Env, start: ChainStart, candidates: seq<Der>): Climbed {
    Path(env, start.referenceTime, start.anchors, candidates, start.leaf)
  }

  /** How a walk ends: at the first status query that fails, otherwise as the
      authenticating loop would. */
  function WalkFailure(env: Env, start: ChainStart, now: int, candidates: seq<Der>): Option<MaterialError> {
    var p := PathOf(env, start, candidates);
    match FirstStatusFailure(env, start.policy, now, p.chain)
    case Some(e) => Some(e)
    case None => p.failure
  }

  function WalkMaterial(env: Env, start: ChainStart, now: int, candidates: seq<Der>, m: Material): Material {
    var chain := PathOf(env, start, candidates).chain;
    AddEvidence(env, start.policy, now, m, chain)
      .(certificates := MergeUnique(m.certificates, Retained(chain, start.includeLeaf, start.includeAnchor)))
  }

  // ----- the authenticating loop

  /** The climb from where a loop stands completes the path `p`. */
  ghost predicate OnCourse(env: Env, t: int, anchors: seq<Der>, p: Climbed, visited: seq<Der>, current: Der, count: nat,
                           candidates: seq<Der>)
  {
    var rest := Climb(env, t, anchors, candidates, visited, current, count);
    p.chain == visited + rest.chain && p.failure == rest.failure
  }

  /** How the course continues from a certificate, or ends there. */
  lemma CourseTurns(env: Env, t: int, anchors: seq<Der>, p: Climbed, visited: seq<Der>, current: Der, count: nat,
                    candidates: seq<Der>)
    requires OnCourse(env, t, anchors, p, visited, current, count, candidates)
    ensures var c := env.parse(current);
            if c.None? || !TimeOk(c.value, t) then p.failure == Some(BadCertificate)
            else if current in visited then p.failure == Some(ChainCycle)
            else if |visited| >= MAX_DEPTH then p.failure == Some(ChainTooDeep)
            else if current in anchors then p == Climbed(visited + [current], None)
            else if NonAnchorProfile(c.value).None? then p.failure == Some(BadCertificate)
            else
              var next := NextCount(c.value, count);
              var found := IssuerOf(env, c.value, t, next, anchors, candidates);
              if found.None? then p.failure == Some(NoIssuer)
              else OnCourse(env, t, anchors, p, visited + [current], found.value, next, PushUnique(candidates, found.value))
  {
    if Passable(env, t, anchors, visited, current) {
      ClimbUnfolds(env, t, anchors, candidates, visited, current, count);
    }
  }

  /** How one turn of the authenticating loop leaves it. */
  datatype Rung = Arrived | Refused(error: MaterialError) | Onward(issuer: Der)

  /** What the turn has checked itself, whatever it was served. */
  ghost predicate RungChecked(env: Env, t: int, anchors: seq<Der>, visited: seq<Der>, current: Der, count: nat, rung: Rung) {
    match rung
    case Arrived =>
      && env.parse(current).Some? && TimeOk(env.parse(current).value, t)
      && current !in visited && |visited| < MAX_DEPTH && current in anchors
    case Refused(_) => true
    case Onward(issuer) =>
      && Passable(env, t, anchors, visited, current)
      && IssuerFits(env, env.parse(current).value, issuer, t, NextCount(env.parse(current).value, count), anchors)
  }

  /** What it says about the path under construction, when servers are steady. */
  ghost predicate RungExplained(env: Env, t: int, anchors: seq<Der>, p: Climbed, visited: seq<Der>, current: Der, count: nat,
                                candidates: seq<Der>, rung: Rung)
  {
    match rung
    case Arrived => p == Climbed(visited + [current], None)
    case Refused(error) => p.failure == Some(error)
    case Onward(issuer) =>
      && env.parse(current).Some?
      && OnCourse(env, t, anchors, p, visited + [current], issuer, NextCount(env.parse(current).value, count), PushUnique(candidates, issuer))
  }

  /** The body of the authenticating loop. */
  method VerifyTurn(env: Env, client: Client, t: int, anchors: seq<Der>, collection: Collection, guard: WalkGuard,
                    current: Der, count: nat, ghost p: Climbed)
      returns (rung: Rung, nextCount: nat)
    modifies client, collection`candidates, guard
    ensures RungChecked(env, t, anchors, old(guard.visited), current, count, rung)
    ensures Steady(client.network, env.web)
            && OnCourse(env, t, anchors, p, old(guard.visited), current, count, old(collection.candidates)) ==>
              RungExplained(env, t, anchors, p, old(guard.visited), current, count, old(collection.candidates), rung)
    ensures rung.Onward? ==>
              && guard.visited == old(guard.visited) + [current]
              && nextCount == NextCount(env.parse(current).value, count)
              && collection.candidates == PushUnique(old(collection.candidates), rung.issuer)
    ensures client.requests <= old(client.requests) + if |old(guard.visited)| < MAX_DEPTH then 3 else 0
    ensures |client.log| <= |old(client.log)| + if |old(guard.visited)| < MAX_DEPTH then 9 else 0
  {
    if OnCourse(env, t, anchors, p, guard.visited, current, count, collection.candidates) {
      CourseTurns(env, t, anchors, p, guard.visited, current, count, collection.candidates);
    }
    nextCount := count;
    var parsed := env.parse(current);
    if parsed.None? || !TimeOk(parsed.value, t) {
      rung := Refused(BadCertificate);
      return;
    }
    var c := parsed.value;
    var refusal := guard.Enter(current);
    if refusal.Some? {
      rung := Refused(refusal.value);
      return;
    }
    if current in anchors {
      rung := Arrived;
      return;
    }
    if NonAnchorProfile(c).None? {
      rung := Refused(BadCertificate);
      return;
    }
    if CountsAsSubordinate(c) {
      nextCount := SaturatingSuccessor(count);
    }
    var issuer := FindIssuer(env, client, c, t, nextCount, anchors, collection.candidates);
    if issuer.Err? {
      rung := Refused(issuer.error);
      return;
    }
    if !IssuerFits(env, c, issuer.value, t, nextCount, anchors) {
      rung := Refused(InvalidIssuer);
      return;
    }
    collection.PushCandidate(issuer.value);
    rung := Onward(issuer.value);
  }

  /** Authenticate a path without collecting evidence. */
  method VerifyChain(env: Env, client: Client, leaf: Der, t: int, anchors: seq<Der>, collection: Collection)
      returns (r: Result<seq<Der>, MaterialError>)
    modifies client, collection`candidates
    ensures r.Ok? ==> SoundPath(env, t, anchors, r.value) && r.value[0] == leaf
    ensures Steady(client.network, env.web) ==>
              var p := Path(env, t, anchors, old(collection.candidates), leaf);
              r == if p.failure.None? then Ok(p.chain) else Err(p.failure.value)
    ensures client.requests <= old(client.requests) + 3 * MAX_DEPTH
    ensures |client.log| <= |old(client.log)| + 9 * MAX_DEPTH
  {
    if anchors == [] {
      return Err(NoTrustAnchor);
    }
    var current, path: seq<Der> := leaf, [];
    var count: nat := 0;
    var guard := new WalkGuard();
    ghost var p := Path(env, t, anchors, collection.candidates, leaf);
    AscentStarts(env, t, anchors, leaf);
    while true
      invariant fresh(guard) && path == guard.visited && (path + [current])[0] == leaf
      invariant Ascending(env, t, anchors, path, current, count)
      invariant Steady(client.network, env.web) ==> OnCourse(env, t, anchors, p, path, current, count, collection.candidates)
      invariant client.requests <= old(client.requests) + 3 * |path|
      invariant |client.log| <= |old(client.log)| + 9 * |path|
      decreases MAX_DEPTH - |path|
    {
      var rung, next := VerifyTurn(env, client, t, anchors, collection, guard, current, count, p);
      match rung
      case Refused(error) => return Err(error);
      case Arrived =>
        AscentEnds(env, t, anchors, path, current, count);
        return Ok(path + [current]);
      case Onward(issuer) =>
        AscentRises(env, t, anchors, path, current, count, issuer);
        path, current, count := path + [current], issuer, next;
    }
  }

  // ----- the evidence loop, whatever it is served

  /** Evidence that was judged good for this link. */
  ghost predicate Vouches(env: Env, policy: NoncePolicy, now: int, child: Der, issuer: Der, e: StatusEvidence) {
    && env.parse(child).Some? && env.parse(issuer).Some?
    && Authentic(env, policy, env.parse(child).value, env.parse(issuer).value, now, e)
  }

  /** The store holds such evidence. */
  ghost predicate LinkVouched(env: Env, policy: NoncePolicy, now: int, child: Der, issuer: Der, m: Material) {
    exists e :: HasEvidence(m, e) && Vouches(env, policy, now, child, issuer, e)
  }

  /** The store holds no evidence beyond `held` but for links of this chain. */
  ghost predicate OnlyVouches(env: Env, policy: NoncePolicy, now: int, chain: seq<Der>, held: Material, m: Material) {
    forall e :: HasEvidence(m, e) && !HasEvidence(held, e) ==>
      exists i :: 0 <= i < |chain| - 1 && Vouches(env, policy, now, chain[i], chain[i + 1], e)
  }

  ghost predicate Vouched(env: Env, policy: NoncePolicy, now: int, chain: seq<Der>, m: Material) {
    forall i :: 0 <= i < |chain| - 1 ==> LinkVouched(env, policy, now, chain[i], chain[i + 1], m)
  }

  lemma LinkStaysVouched(env: Env, policy: NoncePolicy, now: int, child: Der, issuer: Der, m: Material, larger: Material)
    requires LinkVouched(env, policy, now, child, issuer, m)
    requires forall e :: HasEvidence(m, e) ==> HasEvidence(larger, e)
    ensures LinkVouched(env, policy, now, child, issuer, larger)
  {
    var e :| HasEvidence(m, e) && Vouches(env, policy, now, child, issuer, e);
    assert HasEvidence(larger, e);
  }

  lemma StaysVouched(env: Env, policy: NoncePolicy, now: int, chain: seq<Der>, m: Material, larger: Material)
    requires Vouched(env, policy, now, chain, m)
    requires forall e :: HasEvidence(m, e) ==> HasEvidence(larger, e)
    ensures Vouched(env, policy, now, chain, larger)
  {
    forall i | 0 <= i < |chain| - 1
      ensures LinkVouched(env, policy, now, chain[i], chain[i + 1], larger)
    {
      LinkStaysVouched(env, policy, now, chain[i], chain[i + 1], m, larger);
    }
  }

  /** What the collection holds when the walk stands at the end of `seen`. */
  ghost predicate Gathered(env: Env, start: ChainStart, now: int, known: seq<Der>, held: Material, seen: seq<Der>,
                           candidates: seq<Der>, material: Material)
    requires seen != []
  {
    var last := seen[|seen| - 1];
    && seen[0] == start.leaf
    && candidates == MergeUnique(known, seen[1..])
    && material.certificates
       == MergeUnique(held.certificates, PushedSoFar(seen, start.includeLeaf, last !in start.anchors || start.includeAnchor))
    && Vouched(env, start.policy, now, seen, material)
    && OnlyVouches(env, start.policy, now, seen, held, material)
    && Grows(held, material)
    && (NoRepeats(held) ==> NoRepeats(material))
  }

  /** What a finished walk is worth: its path is sound, exactly that path went into
      the store, every link of it is vouched for there, and nothing else was added. */
  ghost predicate Preserved(env: Env, start: ChainStart, now: int, held: Material, path: seq<Der>, material: Material) {
    && SoundPath(env, start.referenceTime, start.anchors, path)
    && path[0] == start.leaf
    && material.certificates == MergeUnique(held.certificates, Retained(path, start.includeLeaf, start.includeAnchor))
    && Vouched(env, start.policy, now, path, material)
    && OnlyVouches(env, start.policy, now, path, held, material)
    && Grows(held, material)
    && (NoRepeats(held) ==> NoRepeats(material))
  }

  function WithLeaf(start: ChainStart, held: Material): Material {
    held.(certificates := if start.includeLeaf then PushUnique(held.certificates, start.leaf) else held.certificates)
  }

  function WithAnchor(start: ChainStart, material: Material, anchor: Der): Material {
    material.(certificates := if start.includeAnchor then PushUnique(material.certificates, anchor) else material.certificates)
  }

  function Advanced(start: ChainStart, material: Material, evidence: StatusEvidence, issuer: Der): Material {
    var m := AddStatus(material, evidence);
    if issuer !in start.anchors || start.includeAnchor
    then m.(certificates := PushUnique(m.certificates, issuer)) else m
  }

  lemma GatheredAtLeaf(env: Env, start: ChainStart, now: int, known: seq<Der>, held: Material)
    ensures Gathered(env, start, now, known, held, [start.leaf], known, WithLeaf(start, held))
  {
    assert [start.leaf][1..] == [];
    MergeUniqueSnoc(held.certificates, [], start.leaf);
    assert [] + [start.leaf] == [start.leaf];
  }

  lemma AdvancedCovers(start: ChainStart, material: Material, evidence: StatusEvidence, issuer: Der)
    ensures var m := Advanced(start, material, evidence, issuer);
            HasEvidence(m, evidence) && Grows(material, m) && (NoRepeats(material) ==> NoRepeats(m))
    ensures forall e :: HasEvidence(Advanced(start, material, evidence, issuer), e) <==> HasEvidence(material, e) || e == evidence
  {
    AddStatusCovers(material, evidence);
    AddStatusAddsOne(material, evidence);
  }

  lemma VouchedSnoc(env: Env, policy: NoncePolicy, now: int, seen: seq<Der>, issuer: Der, m: Material)
    requires seen != [] && Vouched(env, policy, now, seen, m)
    requires LinkVouched(env, policy, now, seen[|seen| - 1], issuer, m)
    ensures Vouched(env, policy, now, seen + [issuer], m)
  {
    var longer := seen + [issuer];
    forall i | 0 <= i < |longer| - 1
      ensures LinkVouched(env, policy, now, longer[i], longer[i + 1], m)
    {
      if i < |seen| - 1 {
        assert LinkVouched(env, policy, now, seen[i], seen[i + 1], m);
      }
    }
  }

  lemma VouchedAdvances(env: Env, policy: NoncePolicy, now: int, seen: seq<Der>, m: Material, larger: Material,
                        issuer: Der, evidence: StatusEvidence)
    requires seen != [] && Vouched(env, policy, now, seen, m)
    requires HasEvidence(larger, evidence) && forall e :: HasEvidence(m, e) ==> HasEvidence(larger, e)
    requires Vouches(env, policy, now, seen[|seen| - 1], issuer, evidence)
    ensures Vouched(env, policy, now, seen + [issuer], larger)
  {
    StaysVouched(env, policy, now, seen, m, larger);
    VouchedSnoc(env, policy, now, seen, issuer, larger);
  }

  lemma OnlyVouchesAdvances(env: Env, policy: NoncePolicy, now: int, seen: seq<Der>, held: Material, m: Material, larger: Material,
                            issuer: Der, evidence: StatusEvidence)
    requires seen != [] && OnlyVouches(env, policy, now, seen, held, m)
    requires forall e :: HasEvidence(larger, e) ==> HasEvidence(m, e) || e == evidence
    requires Vouches(env, policy, now, seen[|seen| - 1], issuer, evidence)
    ensures OnlyVouches(env, policy, now, seen + [issuer], held, larger)
  {
    var longer := seen + [issuer];
    forall e | HasEvidence(larger, e) && !HasEvidence(held, e)
      ensures exists i :: 0 <= i < |longer| - 1 && Vouches(env, policy, now, longer[i], longer[i + 1], e)
    {
      if e == evidence {
        assert Vouches(env, policy, now, longer[|seen| - 1], longer[|seen| - 1 + 1], e);
      } else {
        var i :| 0 <= i < |seen| - 1 && Vouches(env, policy, now, seen[i], seen[i + 1], e);
        assert Vouches(env, policy, now, longer[i], longer[i + 1], e);
      }
    }
  }

  lemma GatheredAdvances(env: Env, start: ChainStart, now: int, known: seq<Der>, held: Material, seen: seq<Der>,
                         candidates: seq<Der>, material: Material, issuer: Der, evidence: StatusEvidence)
    requires seen != [] && Gathered(env, start, now, known, held, seen, candidates, material)
    requires seen[|seen| - 1] !in start.anchors
    requires var child := env.parse(seen[|seen| - 1]);
             && child.Some? && env.parse(issuer).Some?
             && Authentic(env, start.policy, child.value, env.parse(issuer).value, now, evidence)
    ensures Gathered(env, start, now, known, held, seen + [issuer], PushUnique(candidates, issuer),
                     Advanced(start, material, evidence, issuer))
  {
    AdvancedCovers(start, material, evidence, issuer);
    VouchedAdvances(env, start.policy, now, seen, material, Advanced(start, material, evidence, issuer), issuer, evidence);
    OnlyVouchesAdvances(env, start.policy, now, seen, held, material, Advanced(start, material, evidence, issuer), issuer, evidence);
    WalkPushesLink(seen, issuer, start.includeLeaf, issuer !in start.anchors || start.includeAnchor, held.certificates);
    assert (seen + [issuer])[1..] == seen[1..] + [issuer];
    MergeUniqueSnoc(known, seen[1..], issuer);
  }

  lemma GatheredAtAnchor(env: Env, start: ChainStart, now: int, known: seq<Der>, held: Material, path: seq<Der>,
                         candidates: seq<Der>, material: Material)
    requires path != [] && Gathered(env, start, now, known, held, path, candidates, material)
    requires SoundPath(env, start.referenceTime, start.anchors, path)
    ensures Preserved(env, start, now, held, path, WithAnchor(start, material, path[|path| - 1]))
  {
    var m := WithAnchor(start, material, path[|path| - 1]);
    WalkPushesAnchor(path, start.includeLeaf, start.includeAnchor, held.certificates);
    StaysVouched(env, start.policy, now, path, material, m);
  }

  // ----- the evidence loop, when servers are steady

  lemma AddEvidenceSnoc(env: Env, policy: NoncePolicy, now: int, m: Material, chain: seq<Der>, issuer: Der, evidence: StatusEvidence)
    requires chain != [] && LinkStatus(env, policy, now, chain[|chain| - 1], issuer) == Ok(evidence)
    ensures AddEvidence(env, policy, now, m, chain + [issuer]) == AddStatus(AddEvidence(env, policy, now, m, chain), evidence)
  {
    assert (chain + [issuer])[..|chain|] == chain;
  }

  /** The failing link at the end of `seen` is the first failing one of the whole chain. */
  lemma StatusFailsHere(env: Env, policy: NoncePolicy, now: int, chain: seq<Der>, seen: seq<Der>, issuer: Der)
    requires seen != [] && seen + [issuer] <= chain
    requires LinksHaveStatus(env, policy, now, seen)
    requires LinkStatus(env, policy, now, seen[|seen| - 1], issuer).Err?
    ensures FirstStatusFailure(env, policy, now, chain)
            == Some(LinkStatus(env, policy, now, seen[|seen| - 1], issuer).error)
  {
    var k := |seen| - 1;
    assert chain[..k + 1] == seen;
    FirstStatusFailureSkips(env, policy, now, chain, k);
    assert chain[k..][0] == seen[k] && chain[k..][1] == (seen + [issuer])[k + 1] == issuer;
  }

  /** Two prefixes of one chain. */
  lemma PrefixWithNext<T>(visited: seq<T>, rest: seq<T>, chain: seq<T>)
    requires chain == visited + rest && |rest| > 1
    ensures visited + [rest[0]] + [rest[1]] <= chain
  {
    assert rest[..2] == [rest[0]] + [rest[1]];
    assert chain[..|visited| + 2] == visited + rest[..2];
  }

  /** Every link behind the walk has the status answer that steady servers give, and
      the lists of answers are exactly those. */
  ghost predicate Answered(env: Env, start: ChainStart, now: int, held: Material, seen: seq<Der>, material: Material) {
    && LinksHaveStatus(env, start.policy, now, seen)
    && material == AddEvidence(env, start.policy, now, held, seen).(certificates := material.certificates)
  }

  lemma LinksHaveStatusSnoc(env: Env, policy: NoncePolicy, now: int, chain: seq<Der>, issuer: Der)
    requires chain != [] && LinksHaveStatus(env, policy, now, chain)
    requires LinkStatus(env, policy, now, chain[|chain| - 1], issuer).Ok?
    ensures LinksHaveStatus(env, policy, now, chain + [issuer])
  {
  }

  lemma AnsweredAdvances(env: Env, start: ChainStart, now: int, held: Material, seen: seq<Der>, material: Material,
                         issuer: Der, evidence: StatusEvidence)
    requires seen != [] && Answered(env, start, now, held, seen, material)
    requires LinkStatus(env, start.policy, now, seen[|seen| - 1], issuer) == Ok(evidence)
    ensures Answered(env, start, now, held, seen + [issuer], Advanced(start, material, evidence, issuer))
  {
    LinksHaveStatusSnoc(env, start.policy, now, seen, issuer);
    AddEvidenceSnoc(env, start.policy, now, held, seen, issuer, evidence);
  }

  /** The status query for the link to `issuer` fails, and with it the walk. */
  lemma FailsAtLink(env: Env, start: ChainStart, now: int, known: seq<Der>, visited: seq<Der>, current: Der, count: nat,
                    candidates: seq<Der>, issuer: Der)
    requires OnCourse(env, start.referenceTime, start.anchors, PathOf(env, start, known), visited, current, count, candidates)
    requires LinksHaveStatus(env, start.policy, now, visited + [current])
    requires var here := Climb(env, start.referenceTime, start.anchors, candidates, visited, current, count).chain;
             |here| > 1 && here[1] == issuer
    requires LinkStatus(env, start.policy, now, current, issuer).Err?
    ensures WalkFailure(env, start, now, known) == Some(LinkStatus(env, start.policy, now, current, issuer).error)
  {
    var here := Climb(env, start.referenceTime, start.anchors, candidates, visited, current, count).chain;
    var chain := PathOf(env, start, known).chain;
    PrefixWithNext(visited, here, chain);
    StatusFailsHere(env, start.policy, now, chain, visited + [current], issuer);
  }

  /** The climb ends at the current certificate, and so does the walk. */
  lemma EndsHere(env: Env, start: ChainStart, now: int, known: seq<Der>, visited: seq<Der>, current: Der, count: nat,
                 candidates: seq<Der>)
    requires OnCourse(env, start.referenceTime, start.anchors, PathOf(env, start, known), visited, current, count, candidates)
    requires LinksHaveStatus(env, start.policy, now, visited + [current])
    requires Climb(env, start.referenceTime, start.anchors, candidates, visited, current, count).chain == [current]
    ensures PathOf(env, start, known).chain == visited + [current]
    ensures WalkFailure(env, start, now, known)
            == Climb(env, start.referenceTime, start.anchors, candidates, visited, current, count).failure
  {
    NoStatusFailureMeansAll(env, start.policy, now, visited + [current]);
  }

  // ----- the walk

  /** How one turn of the walk leaves it. */
  datatype Turn =
    | Ended(failure: Option<MaterialError>)
    | StatusFailed(issuer: Der, cause: MaterialError)
    | Up(issuer: Der, evidence: StatusEvidence)

  /** What a turn has checked itself, whatever it was served. */
  ghost predicate Checked(env: Env, start: ChainStart, now: int, visited: seq<Der>, current: Der, count: nat, turn: Turn) {
    var t, anchors := start.referenceTime, start.anchors;
    match turn
    case Ended(failure) =>
      failure.None? ==>
        && env.parse(current).Some? && TimeOk(env.parse(current).value, t)
        && current !in visited && |visited| < MAX_DEPTH && current in anchors
    case StatusFailed(_, _) => true
    case Up(issuer, evidence) =>
      && Passable(env, t, anchors, visited, current)
      && IssuerFits(env, env.parse(current).value, issuer, t, NextCount(env.parse(current).value, count), anchors)
      && Authentic(env, start.policy, env.parse(current).value, env.parse(issuer).value, now, evidence)
  }

  /** What a turn established about the climb it is a step of, when servers are steady. */
  ghost predicate Explains(env: Env, start: ChainStart, now: int, candidates: seq<Der>, visited: seq<Der>,
                           current: Der, count: nat, turn: Turn)
  {
    var t, anchors := start.referenceTime, start.anchors;
    var here := Climb(env, t, anchors, candidates, visited, current, count);
    match turn
    case Ended(failure) => here == Climbed([current], failure)
    case StatusFailed(issuer, cause) =>
      |here.chain| > 1 && here.chain[1] == issuer && LinkStatus(env, start.policy, now, current, issuer) == Err(cause)
    case Up(issuer, evidence) =>
      && env.parse(current).Some?
      && LinkStatus(env, start.policy, now, current, issuer) == Ok(evidence)
      && var next := NextCount(env.parse(current).value, count);
         var rest := Climb(env, t, anchors, PushUnique(candidates, issuer), visited + [current], issuer, next);
         visited + here.chain == (visited + [current]) + rest.chain && here.failure == rest.failure
  }

  /** The body of the walk's loop. */
  method WalkTurn(env: Env, client: Client, start: ChainStart, now: int, collection: Collection, guard: WalkGuard,
                  current: Der, count: nat)
      returns (turn: Turn, nextCount: nat)
    modifies client, collection, guard
    ensures Checked(env, start, now, old(guard.visited), current, count, turn)
    ensures Steady(client.network, env.web) ==>
              Explains(env, start, now, old(collection.candidates), old(guard.visited), current, count, turn)
    ensures turn.Ended? && turn.failure.None? ==>
              collection.candidates == old(collection.candidates)
              && collection.material == WithAnchor(start, old(collection.material), current)
    ensures turn.Up? ==>
              && guard.visited == old(guard.visited) + [current]
              && nextCount == NextCount(env.parse(current).value, count)
              && collection.candidates == PushUnique(old(collection.candidates), turn.issuer)
              && collection.material == Advanced(start, old(collection.material), turn.evidence, turn.issuer)
    ensures client.requests <= old(client.requests) + if |old(guard.visited)| < MAX_DEPTH then 9 else 0
    ensures |client.log| <= |old(client.log)| + if |old(guard.visited)| < MAX_DEPTH then 27 else 0
  {
    var t, anchors := start.referenceTime, start.anchors;
    nextCount := count;
    var parsed := env.parse(current);
    if parsed.None? || !TimeOk(parsed.value, t) {
      turn := Ended(Some(BadCertificate));
      return;
    }
    var c := parsed.value;
    ghost var visited := guard.visited;
    var refusal := guard.Enter(current);
    if refusal.Some? {
      turn := Ended(refusal);
      return;
    }
    if current in anchors {
      if start.includeAnchor {
        collection.PushCertificate(current);
      }
      turn := Ended(None);
      return;
    }
    if NonAnchorProfile(c).None? {
      turn := Ended(Some(BadCertificate));
      return;
    }
    if CountsAsSubordinate(c) {
      nextCount := SaturatingSuccessor(count);
    }
    var found := FindIssuer(env, client, c, t, nextCount, anchors, collection.candidates);
    if Steady(client.network, env.web) {
      ClimbUnfolds(env, t, anchors, collection.candidates, visited, current, count);
    }
    if found.Err? {
      turn := Ended(Some(found.error));
      return;
    }
    var issuer := found.value;
    if !IssuerFits(env, c, issuer, t, nextCount, anchors) {
      turn := Ended(Some(InvalidIssuer));
      return;
    }
    var evidence := CollectStatus(env, client, start.policy, c, env.parse(issuer).value, now);
    if evidence.Err? {
      turn := StatusFailed(issuer, evidence.error);
      return;
    }
    collection.PushStatus(evidence.value);
    collection.PushCandidate(issuer);
    if issuer !in anchors || start.includeAnchor {
      collection.PushCertificate(issuer);
    }
    turn := Up(issuer, evidence.value);
  }

  /** What the walk knows each time it turns to a certificate, whatever it is served. */
  ghost predicate Safe(env: Env, start: ChainStart, now: int, known: seq<Der>, held: Material,
                       visited: seq<Der>, current: Der, count: nat, candidates: seq<Der>, material: Material)
  {
    && Ascending(env, start.referenceTime, start.anchors, visited, current, count)
    && Gathered(env, start, now, known, held, visited + [current], candidates, material)
  }

  /** What it knows besides when servers are steady. */
  ghost predicate Standing(env: Env, start: ChainStart, now: int, known: seq<Der>, held: Material,
                           visited: seq<Der>, current: Der, count: nat, candidates: seq<Der>, material: Material)
  {
    && OnCourse(env, start.referenceTime, start.anchors, PathOf(env, start, known), visited, current, count, candidates)
    && Answered(env, start, now, held, visited + [current], material)
  }

  lemma SafeTurn(env: Env, start: ChainStart, now: int, known: seq<Der>, held: Material, visited: seq<Der>,
                 current: Der, count: nat, candidates: seq<Der>, material: Material, turn: Turn)
    requires Safe(env, start, now, known, held, visited, current, count, candidates, material)
    requires Checked(env, start, now, visited, current, count, turn)
    ensures turn.Ended? && turn.failure.None? ==>
              && Preserved(env, start, now, held, visited + [current], WithAnchor(start, material, current))
              && candidates == MergeUnique(known, (visited + [current])[1..])
    ensures turn.Up? ==>
              Safe(env, start, now, known, held, visited + [current], turn.issuer,
                   NextCount(env.parse(current).value, count),
                   PushUnique(candidates, turn.issuer), Advanced(start, material, turn.evidence, turn.issuer))
  {
    match turn
    case Ended(failure) =>
      if failure.None? {
        AscentEnds(env, start.referenceTime, start.anchors, visited, current, count);
        GatheredAtAnchor(env, start, now, known, held, visited + [current], candidates, material);
      }
    case StatusFailed(_, _) =>
    case Up(issuer, evidence) =>
      AscentRises(env, start.referenceTime, start.anchors, visited, current, count, issuer);
      GatheredAdvances(env, start, now, known, held, visited + [current], candidates, material, issuer, evidence);
  }

  lemma SteadyTurn(env: Env, start: ChainStart, now: int, known: seq<Der>, held: Material, visited: seq<Der>,
                   current: Der, count: nat, candidates: seq<Der>, material: Material, turn: Turn)
    requires Standing(env, start, now, known, held, visited, current, count, candidates, material)
    requires Explains(env, start, now, candidates, visited, current, count, turn)
    ensures turn.Ended? ==>
              WalkFailure(env, start, now, known) == turn.failure && PathOf(env, start, known).chain == visited + [current]
    ensures turn.StatusFailed? ==> WalkFailure(env, start, now, known) == Some(turn.cause)
    ensures turn.Up? ==>
              Standing(env, start, now, known, held, visited + [current], turn.issuer,
                       NextCount(env.parse(current).value, count),
                       PushUnique(candidates, turn.issuer), Advanced(start, material, turn.evidence, turn.issuer))
  {
    match turn
    case Ended(failure) => EndsHere(env, start, now, known, visited, current, count, candidates);
    case StatusFailed(issuer, _) => FailsAtLink(env, start, now, known, visited, current, count, candidates, issuer);
    case Up(issuer, evidence) => AnsweredAdvances(env, start, now, held, visited + [current], material, issuer, evidence);
  }

  /** How a walk ended, when servers are steady. */
  ghost predicate WalkedAsDescribed(env: Env, start: ChainStart, now: int, known: seq<Der>, held: Material,
                                    r: Result<(), MaterialError>, path: seq<Der>, material: Material)
  {
    var failure := WalkFailure(env, start, now, known);
    && r == (if failure.None? then Ok(()) else Err(failure.value))
    && (r.Ok? ==> path == PathOf(env, start, known).chain && material == WalkMaterial(env, start, now, known, held))
  }

  lemma SteadyEnd(env: Env, start: ChainStart, now: int, known: seq<Der>, held: Material, visited: seq<Der>,
                  current: Der, count: nat, candidates: seq<Der>, material: Material)
    requires Standing(env, start, now, known, held, visited, current, count, candidates, material)
    requires WalkFailure(env, start, now, known).None? && PathOf(env, start, known).chain == visited + [current]
    requires Preserved(env, start, now, held, visited + [current], WithAnchor(start, material, current))
    ensures WalkedAsDescribed(env, start, now, known, held, Ok(()), visited + [current], WithAnchor(start, material, current))
  {
  }

  /** Authenticate a path and freeze the evidence for it.  `path` is the path walked. */
  method Walk(env: Env, client: Client, start: ChainStart, now: int, collection: Collection)
      returns (r: Result<(), MaterialError>, ghost path: seq<Der>)
    modifies client, collection
    ensures r.Ok? ==>
              && Preserved(env, start, now, old(collection.material), path, collection.material)
              && collection.candidates == MergeUnique(old(collection.candidates), path[1..])
    ensures Steady(client.network, env.web) ==>
              WalkedAsDescribed(env, start, now, old(collection.candidates), old(collection.material), r, path, collection.material)
    ensures client.requests <= old(client.requests) + 9 * MAX_DEPTH
    ensures |client.log| <= |old(client.log)| + 27 * MAX_DEPTH
  {
    path := [];
    if start.anchors == [] {
      return Err(NoTrustAnchor), path;
    }
    var guard := new WalkGuard();
    ghost var known, held := collection.candidates, collection.material;
    if start.includeLeaf {
      collection.PushCertificate(start.leaf);
    }
    assert collection.material == WithLeaf(start, held);
    SafeAtLeaf(env, start, now, known, held);
    StandingAtLeaf(env, start, now, known, held);
    r, path := Climbing(env, client, start, now, collection, guard, held);
  }

  lemma SafeAtLeaf(env: Env, start: ChainStart, now: int, known: seq<Der>, held: Material)
    ensures Safe(env, start, now, known, held, [], start.leaf, 0, known, WithLeaf(start, held))
  {
    AscentStarts(env, start.referenceTime, start.anchors, start.leaf);
    GatheredAtLeaf(env, start, now, known, held);
    assert [] + [start.leaf] == [start.leaf];
  }

  lemma StandingAtLeaf(env: Env, start: ChainStart, now: int, known: seq<Der>, held: Material)
    requires start.anchors != []
    ensures Standing(env, start, now, known, held, [], start.leaf, 0, known, WithLeaf(start, held))
  {
    assert [] + [start.leaf] == [start.leaf];
    var p := PathOf(env, start, known);
    assert [] + p.chain == p.chain;
  }

  /** The walk's loop, entered with the leaf pushed and nothing visited. */
  method Climbing(env: Env, client: Client, start: ChainStart, now: int, collection: Collection, guard: WalkGuard, ghost held: Material)
      returns (r: Result<(), MaterialError>, ghost path: seq<Der>)
    requires guard.visited == []
    requires Safe(env, start, now, collection.candidates, held, [], start.leaf, 0, collection.candidates, collection.material)
    requires Standing(env, start, now, collection.candidates, held, [], start.leaf, 0, collection.candidates, collection.material)
    modifies client, collection, guard
    ensures r.Ok? ==>
              && Preserved(env, start, now, held, path, collection.material)
              && collection.candidates == MergeUnique(old(collection.candidates), path[1..])
    ensures Steady(client.network, env.web) ==>
              WalkedAsDescribed(env, start, now, old(collection.candidates), held, r, path, collection.material)
    ensures client.requests <= old(client.requests) + 9 * MAX_DEPTH
    ensures |client.log| <= |old(client.log)| + 27 * MAX_DEPTH
  {
    path := [];
    var current := start.leaf;
    var count: nat := 0;
    ghost var known := collection.candidates;
    while true
      invariant |guard.visited| <= MAX_DEPTH
      invariant Safe(env, start, now, known, held, guard.visited, current, count, collection.candidates, collection.material)
      invariant Steady(client.network, env.web) ==>
                  Standing(env, start, now, known, held, guard.visited, current, count, collection.candidates, collection.material)
      invariant client.requests <= old(client.requests) + 9 * |guard.visited|
      invariant |client.log| <= |old(client.log)| + 27 * |guard.visited|
      decreases MAX_DEPTH - |guard.visited|
    {
      ghost var visited, candidates, material := guard.visited, collection.candidates, collection.material;
      path := visited + [current];
      var turn, next := WalkTurn(env, client, start, now, collection, guard, current, count);
      SafeTurn(env, start, now, known, held, visited, current, count, candidates, material, turn);
      if Steady(client.network, env.web) {
        SteadyTurn(env, start, now, known, held, visited, current, count, candidates, material, turn);
        if turn == Ended(None) {
          SteadyEnd(env, start, now, known, held, visited, current, count, candidates, material);
        }
      }
      match turn
      case Ended(failure) => return if failure.None? then Ok(()) else Err(failure.value), path;
      case StatusFailed(_, cause) => return Err(cause), path;
      case Up(issuer, _) => current, count := issuer, next;
    }
  }

  // ----- several chains

  function Leaves(starts: seq<ChainStart>): (r: seq<Der>)
    ensures |r| == |starts| && forall i :: 0 <= i < |r| ==> r[i] == starts[i].leaf
  {
    seq(|starts|, i requires 0 <= i < |starts| => starts[i].leaf)
  }

  function After(env: Env, start: ChainStart, candidates: seq<Der>): seq<Der> {
    MergeUnique(candidates, PathOf(env, start, candidates).chain[1..])
  }

  /** Walk every start in order, each with the candidates its predecessors left. */
  function CollectFrom(env: Env, starts: seq<ChainStart>, now: int, candidates: seq<Der>, m: Material): Result<Material, MaterialError>
    decreases |starts|
  {
    if starts == [] then Ok(m)
    else
      match WalkFailure(env, starts[0], now, candidates)
      case Some(e) => Err(e)
      case None =>
        CollectFrom(env, starts[1..], now, After(env, starts[0], candidates), WalkMaterial(env, starts[0], now, candidates, m))
  }

  function Collect(env: Env, starts: seq<ChainStart>, extra: seq<Der>, now: int): Result<Material, MaterialError> {
    if starts == [] then Err(NoChain)
    else CollectFrom(env, starts, now, MergeUnique([], Leaves(starts) + extra), EMPTY)
  }

  method PushCandidates(collection: Collection, ders: seq<Der>)
    modifies collection`candidates
    ensures collection.candidates == MergeUnique(old(collection.candidates), ders)
  {
    for i := 0 to |ders|
      invariant collection.candidates == MergeUnique(old(collection.candidates), ders[..i])
    {
      assert ders[..i + 1] == ders[..i] + [ders[i]];
      MergeUniqueSnoc(old(collection.candidates), ders[..i], ders[i]);
      collection.PushCandidate(ders[i]);
    }
    assert ders[..|ders|] == ders;
  }

  /** Each start has a sound path whose links the store vouches for. */
  ghost predicate AllPreserved(env: Env, starts: seq<ChainStart>, now: int, paths: seq<seq<Der>>, m: Material) {
    && |paths| <= |starts|
    && forall i :: 0 <= i < |paths| ==>
         && SoundPath(env, starts[i].referenceTime, starts[i].anchors, paths[i])
         && paths[i][0] == starts[i].leaf
         && Vouched(env, starts[i].policy, now, paths[i], m)
  }

  /** The certificates that the starts leave in the store, path by path. */
  ghost function RetainedBy(starts: seq<ChainStart>, paths: seq<seq<Der>>): set<Der>
    requires |paths| <= |starts| && forall i :: 0 <= i < |paths| ==> paths[i] != []
    decreases |paths|
  {
    if paths == [] then {}
    else
      var last := |paths| - 1;
      RetainedBy(starts, paths[..last]) + Elements(Retained(paths[last], starts[last].includeLeaf, starts[last].includeAnchor))
  }

  ghost predicate VouchesSomewhere(env: Env, policy: NoncePolicy, now: int, path: seq<Der>, e: StatusEvidence) {
    exists i :: 0 <= i < |path| - 1 && Vouches(env, policy, now, path[i], path[i + 1], e)
  }

  /** All evidence in the store vouches for a link of some path. */
  ghost predicate OnlyEvidence(env: Env, starts: seq<ChainStart>, now: int, paths: seq<seq<Der>>, m: Material)
    requires |paths| <= |starts|
  {
    forall e :: HasEvidence(m, e) ==> exists j :: 0 <= j < |paths| && VouchesSomewhere(env, starts[j].policy, now, paths[j], e)
  }

  lemma OnlyEvidenceOneMore(env: Env, starts: seq<ChainStart>, now: int, paths: seq<seq<Der>>, held: Material,
                            path: seq<Der>, m: Material)
    requires |paths| < |starts| && OnlyEvidence(env, starts, now, paths, held)
    requires OnlyVouches(env, starts[|paths|].policy, now, path, held, m)
    ensures OnlyEvidence(env, starts, now, paths + [path], m)
  {
    var longer := paths + [path];
    forall e | HasEvidence(m, e)
      ensures exists j :: 0 <= j < |longer| && VouchesSomewhere(env, starts[j].policy, now, longer[j], e)
    {
      if HasEvidence(held, e) {
        var j :| 0 <= j < |paths| && VouchesSomewhere(env, starts[j].policy, now, paths[j], e);
        assert longer[j] == paths[j];
      } else {
        assert VouchesSomewhere(env, starts[|paths|].policy, now, longer[|paths|], e);
      }
    }
  }

  /** A store that holds exactly what sound paths of the first starts leave in it. */
  ghost predicate Holds(env: Env, starts: seq<ChainStart>, now: int, paths: seq<seq<Der>>, m: Material) {
    && AllPreserved(env, starts, now, paths, m)
    && OnlyEvidence(env, starts, now, paths, m)
    && Elements(m.certificates) == RetainedBy(starts, paths)
    && NoRepeats(m)
  }

  lemma HoldsOneMore(env: Env, starts: seq<ChainStart>, now: int, paths: seq<seq<Der>>, held: Material,
                     path: seq<Der>, m: Material)
    requires |paths| < |starts| && Holds(env, starts, now, paths, held)
    requires Preserved(env, starts[|paths|], now, held, path, m)
    ensures Holds(env, starts, now, paths + [path], m)
  {
    var longer, start := paths + [path], starts[|paths|];
    forall i | 0 <= i < |paths|
      ensures Vouched(env, starts[i].policy, now, paths[i], m)
    {
      StaysVouched(env, starts[i].policy, now, paths[i], held, m);
    }
    OnlyEvidenceOneMore(env, starts, now, paths, held, path, m);
    assert longer[..|paths|] == paths;
    MergeUniqueIsUnion(held.certificates, Retained(path, start.includeLeaf, start.includeAnchor));
  }

  /** One start done, the rest to go. */
  lemma CollectsOn(env: Env, starts: seq<ChainStart>, i: nat, now: int, known: seq<Der>, held: Material,
                   walked: Result<(), MaterialError>, path: seq<Der>, m: Material)
    requires i < |starts| && WalkedAsDescribed(env, starts[i], now, known, held, walked, path, m)
    ensures walked.Err? ==> CollectFrom(env, starts[i..], now, known, held) == Err(walked.error)
    ensures walked.Ok? ==>
              && path != []
              && CollectFrom(env, starts[i..], now, known, held)
                 == CollectFrom(env, starts[i + 1..], now, MergeUnique(known, path[1..]), m)
  {
    assert starts[i..][1..] == starts[i + 1..];
  }

  /** Evidence for every start, or an error and nothing.  Whatever is served, a
      returned store holds exactly the retained certificates of sound `paths`,
      vouches for every link of them and repeats nothing. */
  method CollectChains(env: Env, client: Client, starts: seq<ChainStart>, extra: seq<Der>, now: int)
      returns (r: Result<Material, MaterialError>, ghost paths: seq<seq<Der>>)
    modifies client
    ensures r.Ok? ==> |paths| == |starts| && Holds(env, starts, now, paths, r.value)
    ensures Steady(client.network, env.web) ==> r == Collect(env, starts, extra, now)
    ensures client.requests <= old(client.requests) + 72 * |starts|
    ensures |client.log| <= |old(client.log)| + 216 * |starts|
  {
    paths := [];
    if starts == [] {
      return Err(NoChain), paths;
    }
    var collection := new Collection();
    PushCandidates(collection, Leaves(starts));
    PushCandidates(collection, extra);
    MergeUniqueConcat([], Leaves(starts), extra);
    r, paths := WalkAll(env, client, starts, now, collection);
  }

  method WalkAll(env: Env, client: Client, starts: seq<ChainStart>, now: int, collection: Collection)
      returns (r: Result<Material, MaterialError>, ghost paths: seq<seq<Der>>)
    requires collection.material == EMPTY
    modifies client, collection
    ensures r.Ok? ==> |paths| == |starts| && Holds(env, starts, now, paths, r.value)
    ensures Steady(client.network, env.web) ==> r == CollectFrom(env, starts, now, old(collection.candidates), EMPTY)
    ensures client.requests <= old(client.requests) + 72 * |starts|
    ensures |client.log| <= |old(client.log)| + 216 * |starts|
  {
    paths := [];
    ghost var whole := CollectFrom(env, starts, now, collection.candidates, EMPTY);
    assert starts[0..] == starts;
    for i := 0 to |starts|
      invariant |paths| == i && Holds(env, starts, now, paths, collection.material)
      invariant Steady(client.network, env.web) ==>
                  whole == CollectFrom(env, starts[i..], now, collection.candidates, collection.material)
      invariant client.requests <= old(client.requests) + 72 * i
      invariant |client.log| <= |old(client.log)| + 216 * i
    {
      ghost var known, held := collection.candidates, collection.material;
      var walked, path := Walk(env, client, starts[i], now, collection);
      if Steady(client.network, env.web) {
        CollectsOn(env, starts, i, now, known, held, walked, path, collection.material);
      }
      if walked.Err? {
        return Err(walked.error), paths;
      }
      HoldsOneMore(env, starts, now, paths, held, path, collection.material);
      paths := paths + [path];
    }
    r := Ok(collection.material);
  }
}
