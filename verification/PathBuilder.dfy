/** Choosing an issuer, and the climb from a leaf to an approved anchor: one
    functional description, `Climb`, that both path loops are held against. */
module PathBuilder {
  import opened Basics
  import opened Http
  import opened Certificates
  import opened IssuerRules

  const U32_MAX: nat := 0xFFFF_FFFF

  function SaturatingSuccessor(n: nat): nat {
    if n < U32_MAX then n + 1 else U32_MAX
  }

  /** A non-self-issued CA certificate: what pathLen limits count. */
  predicate CountsAsSubordinate(c: Cert) {
    && NonAnchorProfile(c).Some?
    && NonAnchorProfile(c).value.constraints.ca
    && c.issuer != c.subject
  }

  function NextCount(c: Cert, count: nat): nat {
    if CountsAsSubordinate(c) then SaturatingSuccessor(count) else count
  }

  // ----- choosing an issuer

  predicate IssuerFits(env: Env, subject: Cert, d: Der, t: int, count: nat, anchors: seq<Der>) {
    env.parse(d).Some? && LinkOk(env, subject, env.parse(d).value, t, count, d in anchors)
  }

  lemma FitsMeans(env: Env, subject: Cert, d: Der, t: int, count: nat, anchors: seq<Der>)
    ensures IssuerFits(env, subject, d, t, count, anchors) <==> Fits(env, subject, d, t, count, anchors)
  {
    if env.parse(d).Some? {
      LinkIsIssued(env, subject, env.parse(d).value, t, count, d in anchors);
    }
  }

  function FirstLocal(env: Env, subject: Cert, t: int, count: nat, anchors: seq<Der>, list: seq<Der>): Option<Der> {
    if list == [] then None
    else if list[0] != subject.raw && IssuerFits(env, subject, list[0], t, count, anchors) then Some(list[0])
    else FirstLocal(env, subject, t, count, anchors, list[1..])
  }

  function FirstFetched(env: Env, subject: Cert, t: int, count: nat, anchors: seq<Der>, urls: seq<Uri>): Option<Der> {
    if urls == [] then None
    else
      var d := FetchIssuer(env, urls[0]);
      if d.Some? && IssuerFits(env, subject, d.value, t, count, anchors) then d
      else FirstFetched(env, subject, t, count, anchors, urls[1..])
  }

  /** Approved anchors first, then candidates already known, then the network. */
  function IssuerOf(env: Env, subject: Cert, t: int, count: nat, anchors: seq<Der>, candidates: seq<Der>): Option<Der> {
    match FirstLocal(env, subject, t, count, anchors, anchors + candidates)
    case Some(d) => Some(d)
    case None =>
      if subject.extensions.None? then None
      else FirstFetched(env, subject, t, count, anchors, Bounded(subject.extensions.value.caIssuers))
  }

  lemma {:induction false} FirstLocalFits(env: Env, subject: Cert, t: int, count: nat, anchors: seq<Der>, list: seq<Der>)
    ensures var r := FirstLocal(env, subject, t, count, anchors, list);
            r.Some? ==> r.value in list && IssuerFits(env, subject, r.value, t, count, anchors)
    decreases |list|
  {
    if list != [] {
      FirstLocalFits(env, subject, t, count, anchors, list[1..]);
    }
  }

  lemma {:induction false} FirstFetchedFits(env: Env, subject: Cert, t: int, count: nat, anchors: seq<Der>, urls: seq<Uri>)
    ensures var r := FirstFetched(env, subject, t, count, anchors, urls);
            r.Some? ==> IssuerFits(env, subject, r.value, t, count, anchors)
    decreases |urls|
  {
    if urls != [] {
      FirstFetchedFits(env, subject, t, count, anchors, urls[1..]);
    }
  }

  lemma IssuerOfFits(env: Env, subject: Cert, t: int, count: nat, anchors: seq<Der>, candidates: seq<Der>)
    ensures var r := IssuerOf(env, subject, t, count, anchors, candidates);
            r.Some? ==> IssuerFits(env, subject, r.value, t, count, anchors)
  {
    FirstLocalFits(env, subject, t, count, anchors, anchors + candidates);
    if subject.extensions.Some? {
      FirstFetchedFits(env, subject, t, count, anchors, Bounded(subject.extensions.value.caIssuers));
    }
  }

  ghost predicate FitsAt(env: Env, subject: Cert, t: int, count: nat, anchors: seq<Der>, list: seq<Der>, i: nat)
    requires i < |list|
  {
    list[i] != subject.raw && Fits(env, subject, list[i], t, count, anchors)
  }

  /** The local choice is the first that fits, and there is none exactly when none fits. */
  lemma {:induction false} FirstLocalIsFirst(env: Env, subject: Cert, t: int, count: nat, anchors: seq<Der>, list: seq<Der>)
      returns (k: nat)
    ensures FirstLocal(env, subject, t, count, anchors, list).None? ==>
              forall i :: 0 <= i < |list| ==> !FitsAt(env, subject, t, count, anchors, list, i)
    ensures FirstLocal(env, subject, t, count, anchors, list).Some? ==>
              && k < |list| && FirstLocal(env, subject, t, count, anchors, list) == Some(list[k])
              && FitsAt(env, subject, t, count, anchors, list, k)
              && forall i :: 0 <= i < k ==> !FitsAt(env, subject, t, count, anchors, list, i)
    decreases |list|
  {
    k := 0;
    if list != [] {
      FitsMeans(env, subject, list[0], t, count, anchors);
    }
    if list != [] && !FitsAt(env, subject, t, count, anchors, list, 0) {
      var rest := list[1..];
      var j := FirstLocalIsFirst(env, subject, t, count, anchors, rest);
      k := j + 1;
      assert forall i :: 0 < i < |list| ==>
        FitsAt(env, subject, t, count, anchors, list, i) == FitsAt(env, subject, t, count, anchors, rest, i - 1);
    }
  }

  lemma {:induction false} FirstLocalIgnoresNetwork(env: Env, other: Web, subject: Cert, t: int, count: nat, anchors: seq<Der>, list: seq<Der>)
    ensures FirstLocal(env.(web := other), subject, t, count, anchors, list) == FirstLocal(env, subject, t, count, anchors, list)
    decreases |list|
  {
    if list != [] {
      FirstLocalIgnoresNetwork(env, other, subject, t, count, anchors, list[1..]);
    }
  }

  /** The order of preference: an approved anchor that fits, else a known candidate;
      and when one of those fits, no server can change the choice. */
  lemma IssuerPreference(env: Env, other: Web, subject: Cert, t: int, count: nat, anchors: seq<Der>, candidates: seq<Der>)
    ensures var r := IssuerOf(env, subject, t, count, anchors, candidates);
            && ((exists i :: 0 <= i < |anchors| && FitsAt(env, subject, t, count, anchors, anchors, i)) ==>
                  r.Some? && r.value in anchors && r == IssuerOf(env.(web := other), subject, t, count, anchors, candidates))
            && ((exists i :: 0 <= i < |candidates| && FitsAt(env, subject, t, count, anchors, candidates, i)) ==>
                  && r.Some? && (r.value in anchors || r.value in candidates)
                  && r == IssuerOf(env.(web := other), subject, t, count, anchors, candidates))
  {
    var list := anchors + candidates;
    FirstLocalIgnoresNetwork(env, other, subject, t, count, anchors, list);
    var k := FirstLocalIsFirst(env, subject, t, count, anchors, list);
    if i :| 0 <= i < |anchors| && FitsAt(env, subject, t, count, anchors, anchors, i) {
      assert FitsAt(env, subject, t, count, anchors, list, i);
      assert k <= i;
    }
    if i :| 0 <= i < |candidates| && FitsAt(env, subject, t, count, anchors, candidates, i) {
      assert list[|anchors| + i] == candidates[i];
      assert FitsAt(env, subject, t, count, anchors, list, |anchors| + i);
    }
  }

  /** The chosen issuer fits whoever served it, and the network is left alone when
      an anchor or a known candidate fits. */
  method FindIssuer(env: Env, client: Client, subject: Cert, t: int, count: nat, anchors: seq<Der>, candidates: seq<Der>)
      returns (r: Result<Der, MaterialError>)
    modifies client
    ensures client.requests <= old(client.requests) + 3 && |client.log| <= |old(client.log)| + 9
    ensures var local := FirstLocal(env, subject, t, count, anchors, anchors + candidates);
            local.Some? ==> r == Ok(local.value) && client.requests == old(client.requests) && client.log == old(client.log)
    ensures r == Err(NoIssuer) || (r.Ok? && Fits(env, subject, r.value, t, count, anchors))
    ensures Steady(client.network, env.web) ==>
              var found := IssuerOf(env, subject, t, count, anchors, candidates);
              r == if found.Some? then Ok(found.value) else Err(NoIssuer)
  {
    var local := anchors + candidates;
    for i := 0 to |local|
      invariant client.requests == old(client.requests) && client.log == old(client.log)
      invariant FirstLocal(env, subject, t, count, anchors, local) == FirstLocal(env, subject, t, count, anchors, local[i..])
    {
      assert local[i..][1..] == local[i + 1..];
      if local[i] == subject.raw {
        continue;
      }
      if IssuerFits(env, subject, local[i], t, count, anchors) {
        FitsMeans(env, subject, local[i], t, count, anchors);
        return Ok(local[i]);
      }
    }
    if subject.extensions.None? {
      return Err(NoIssuer);
    }
    r := FetchFirstIssuer(env, client, subject, t, count, anchors);
  }

  /** Ask the first three distinct CA Issuers addresses in turn. */
  method FetchFirstIssuer(env: Env, client: Client, subject: Cert, t: int, count: nat, anchors: seq<Der>)
      returns (r: Result<Der, MaterialError>)
    requires subject.extensions.Some?
    modifies client
    ensures client.requests <= old(client.requests) + 3 && |client.log| <= |old(client.log)| + 9
    ensures r == Err(NoIssuer) || (r.Ok? && Fits(env, subject, r.value, t, count, anchors))
    ensures Steady(client.network, env.web) ==>
              var found := FirstFetched(env, subject, t, count, anchors, Bounded(subject.extensions.value.caIssuers));
              r == if found.Some? then Ok(found.value) else Err(NoIssuer)
  {
    var urls := BoundedCertificateAddresses(subject.extensions.value.caIssuers);
    for i := 0 to |urls|
      invariant client.requests <= old(client.requests) + i && |client.log| <= |old(client.log)| + 3 * i
      invariant Steady(client.network, env.web) ==>
                  FirstFetched(env, subject, t, count, anchors, urls) == FirstFetched(env, subject, t, count, anchors, urls[i..])
    {
      assert urls[i..][1..] == urls[i + 1..];
      var d := DoFetchIssuer(env, client, urls[i]);
      if d.Some? && IssuerFits(env, subject, d.value, t, count, anchors) {
        FitsMeans(env, subject, d.value, t, count, anchors);
        return Ok(d.value);
      }
    }
    r := Err(NoIssuer);
  }

  // ----- the climb both loops perform

  /** Every certificate that became the current one, and why the climb ended:
      `None` when the last of them is an approved anchor. */
  datatype Climbed = Climbed(chain: seq<Der>, failure: Option<MaterialError>)

  function Climb(env: Env, t: int, anchors: seq<Der>, candidates: seq<Der>, visited: seq<Der>, current: Der, count: nat): (r: Climbed)
    ensures r.chain != [] && r.chain[0] == current
    decreases MAX_DEPTH - |visited|
  {
    if env.parse(current).None? || !TimeOk(env.parse(current).value, t) then Climbed([current], Some(BadCertificate))
    else if current in visited then Climbed([current], Some(ChainCycle))
    else if |visited| >= MAX_DEPTH then Climbed([current], Some(ChainTooDeep))
    else if current in anchors then Climbed([current], None)
    else
      var c := env.parse(current).value;
      if NonAnchorProfile(c).None? then Climbed([current], Some(BadCertificate))
      else
        match IssuerOf(env, c, t, NextCount(c, count), anchors, candidates)
        case None => Climbed([current], Some(NoIssuer))
        case Some(issuer) =>
          var rest := Climb(env, t, anchors, PushUnique(candidates, issuer), visited + [current], issuer, NextCount(c, count));
          Climbed([current] + rest.chain, rest.failure)
  }

  function Path(env: Env, t: int, anchors: seq<Der>, candidates: seq<Der>, leaf: Der): Climbed {
    if anchors == [] then Climbed([leaf], Some(NoTrustAnchor))
    else Climb(env, t, anchors, candidates, [], leaf, 0)
  }

  /** Remembers what one path has entered, to stop it from repeating or growing long. */
  class WalkGuard {
    var visited: seq<Der>

    constructor ()
      ensures visited == []
    {
      visited := [];
    }

    method Enter(certificate: Der) returns (refusal: Option<MaterialError>)
      modifies this
      ensures certificate in old(visited) ==> refusal == Some(ChainCycle)
      ensures certificate !in old(visited) && |old(visited)| >= MAX_DEPTH ==> refusal == Some(ChainTooDeep)
      ensures refusal.None? <==> certificate !in old(visited) && |old(visited)| < MAX_DEPTH
      ensures visited == if refusal.None? then old(visited) + [certificate] else old(visited)
    {
      if certificate in visited {
        return Some(ChainCycle);
      }
      if |visited| >= MAX_DEPTH {
        return Some(ChainTooDeep);
      }
      visited := visited + [certificate];
      refusal := None;
    }
  }

  predicate Passable(env: Env, t: int, anchors: seq<Der>, visited: seq<Der>, current: Der) {
    && env.parse(current).Some? && TimeOk(env.parse(current).value, t)
    && current !in visited && |visited| < MAX_DEPTH && current !in anchors
    && NonAnchorProfile(env.parse(current).value).Some?
  }

  lemma ClimbRises(env: Env, t: int, anchors: seq<Der>, candidates: seq<Der>, visited: seq<Der>, current: Der, count: nat, issuer: Der)
    requires Passable(env, t, anchors, visited, current)
    requires IssuerOf(env, env.parse(current).value, t, NextCount(env.parse(current).value, count), anchors, candidates) == Some(issuer)
    ensures var rest := Climb(env, t, anchors, PushUnique(candidates, issuer), visited + [current], issuer,
                              NextCount(env.parse(current).value, count));
            Climb(env, t, anchors, candidates, visited, current, count) == Climbed([current] + rest.chain, rest.failure)
  {
  }

  lemma Regroup<T>(a: seq<T>, x: T, b: seq<T>)
    ensures a + ([x] + b) == (a + [x]) + b
  {
  }

  /** One turn of either loop on the certificate just entered. */
  lemma ClimbUnfolds(env: Env, t: int, anchors: seq<Der>, candidates: seq<Der>, visited: seq<Der>, current: Der, count: nat)
    requires Passable(env, t, anchors, visited, current)
    ensures var c := env.parse(current).value;
            var found := IssuerOf(env, c, t, NextCount(c, count), anchors, candidates);
            var here := Climb(env, t, anchors, candidates, visited, current, count);
            && (found.None? ==> here == Climbed([current], Some(NoIssuer)))
            && (found.Some? ==>
                  && IssuerFits(env, c, found.value, t, NextCount(c, count), anchors)
                  && var rest := Climb(env, t, anchors, PushUnique(candidates, found.value), visited + [current],
                                       found.value, NextCount(c, count));
                     && visited + here.chain == (visited + [current]) + rest.chain
                     && here.failure == rest.failure)
  {
    var c := env.parse(current).value;
    IssuerOfFits(env, c, t, NextCount(c, count), anchors, candidates);
    var found := IssuerOf(env, c, t, NextCount(c, count), anchors, candidates);
    if found.Some? {
      ClimbRises(env, t, anchors, candidates, visited, current, count, found.value);
      Regroup(visited, current, Climb(env, t, anchors, PushUnique(candidates, found.value), visited + [current],
                                      found.value, NextCount(c, count)).chain);
    }
  }
}
