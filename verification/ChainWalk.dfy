/** The `cert chain` walk over a directory of issuers and fetched certificates.
    It keeps no visited set; what stops it from going round is the depth cap. */
module ChainWalk {
  import opened Basics

  type Name = seq<byte>
  type Address = string

  datatype ChainCert = ChainCert(subject: Name, issuer: Name, caIssuers: seq<Address>, raw: Der)

  datatype PoolCert = PoolCert(source: string, cert: ChainCert)

  /** Signature checks and what an address serves (`None` covers refused schemes,
      failed fetches and undecodable bodies). */
  datatype World = World(signedBy: (ChainCert, ChainCert) -> bool, serve: Address -> Option<ChainCert>)

  datatype LinkVerify =
    | Verified
    | VerifiedViaAia(url: Address)
    | SignatureFailed
    | IssuerMissing
    | AiaFetchFailed(url: Address)
    | SelfSignedRoot

  datatype ChainLink = ChainLink(depth: nat, source: string, verify: LinkVerify)

  const MAX_DEPTH: nat := 16

  function FindIssuerInPool(pool: seq<PoolCert>, name: Name): Option<PoolCert> {
    if pool == [] then None
    else if pool[0].cert.subject == name then Some(pool[0])
    else FindIssuerInPool(pool[1..], name)
  }

  predicate SelfSigned(c: ChainCert) {
    c.subject == c.issuer
  }

  /** The pool only grows at its end, so a first match never changes, and a
      certificate appended because there was none becomes it. */
  lemma {:induction false} FirstMatchIsStable(pool: seq<PoolCert>, added: PoolCert, name: Name)
    ensures var before, after := FindIssuerInPool(pool, name), FindIssuerInPool(pool + [added], name);
            && (before.Some? ==> after == before && before.value.cert.subject == name)
            && (before.None? && added.cert.subject == name ==> after == Some(added))
  {
    if pool == [] {
      assert pool + [added] == [added];
    } else {
      assert (pool + [added])[1..] == pool[1..] + [added];
      FirstMatchIsStable(pool[1..], added, name);
    }
  }

  function FetchAiaCert(world: World, url: Address, expected: Name): Option<ChainCert> {
    match world.serve(url)
    case Some(c) => if c.subject == expected then Some(c) else None
    case None => None
  }

  /** Each visited certificate but the last was not self-signed, and was followed by
      the pool's first match for its issuer name, whose key verified it. */
  ghost predicate Linked(world: World, pool: seq<PoolCert>, visited: seq<ChainCert>) {
    forall i :: 0 <= i < |visited| - 1 ==> Follows(world, pool, visited[i], visited[i + 1])
  }

  ghost predicate Follows(world: World, pool: seq<PoolCert>, child: ChainCert, parent: ChainCert) {
    && !SelfSigned(child)
    && FindIssuerInPool(pool, child.issuer).Some?
    && FindIssuerInPool(pool, child.issuer).value.cert == parent
    && world.signedBy(child, parent)
  }

  /** Nothing follows this certificate. */
  ghost predicate Final(world: World, pool: seq<PoolCert>, c: ChainCert) {
    forall parent :: !Follows(world, pool, c, parent)
  }

  lemma LinkedSurvivesGrowth(world: World, pool: seq<PoolCert>, added: PoolCert, visited: seq<ChainCert>)
    requires Linked(world, pool, visited)
    ensures Linked(world, pool + [added], visited)
  {
    forall i | 0 <= i < |visited| - 1
      ensures Follows(world, pool + [added], visited[i], visited[i + 1])
    {
      FirstMatchIsStable(pool, added, visited[i].issuer);
    }
  }

  /** Once a certificate comes back the walk repeats itself from there on. */
  lemma {:induction false} RevisitRepeats(world: World, pool: seq<PoolCert>, visited: seq<ChainCert>, i: nat, j: nat, m: nat)
    requires Linked(world, pool, visited)
    requires i < j && j + m < |visited| && visited[i] == visited[j]
    ensures visited[i + m] == visited[j + m]
    decreases m
  {
    if m > 0 {
      RevisitRepeats(world, pool, visited, i, j, m - 1);
      assert Follows(world, pool, visited[i + m - 1], visited[i + m - 1 + 1]);
      assert Follows(world, pool, visited[j + m - 1], visited[j + m - 1 + 1]);
    }
  }

  lemma LinkedIsNotFinal(world: World, pool: seq<PoolCert>, visited: seq<ChainCert>, k: nat)
    requires Linked(world, pool, visited) && k < |visited| - 1
    ensures !Final(world, pool, visited[k])
  {
    assert Follows(world, pool, visited[k], visited[k + 1]);
  }

  /** A walk that ended at a certificate nothing follows visited none twice, and no
      two of its steps went to the same issuer name. */
  lemma EndedWalkIsAcyclic(world: World, pool: seq<PoolCert>, visited: seq<ChainCert>)
    requires visited != [] && Linked(world, pool, visited) && Final(world, pool, visited[|visited| - 1])
    ensures Distinct(visited)
    ensures forall i, j :: 0 <= i < j < |visited| - 1 ==> visited[i].issuer != visited[j].issuer
  {
    var last := |visited| - 1;
    forall i, j | 0 <= i < j < |visited|
      ensures visited[i] != visited[j]
    {
      if visited[i] == visited[j] {
        LinkedIsNotFinal(world, pool, visited, i + last - j);
        RevisitRepeats(world, pool, visited, i, j, last - j);
      }
    }
    forall i, j | 0 <= i < j < last
      ensures visited[i].issuer != visited[j].issuer
    {
      assert Follows(world, pool, visited[i], visited[i + 1]) && Follows(world, pool, visited[j], visited[j + 1]);
    }
  }

  // ----- one link of the report, spelled out

  /** Entry `k` is the pool's first certificate of that name. */
  ghost predicate FirstNamed(pool: seq<PoolCert>, k: nat, name: Name)
    requires k < |pool|
  {
    pool[k].cert.subject == name && forall j :: 0 <= j < k ==> pool[j].cert.subject != name
  }

  ghost predicate Unnamed(pool: seq<PoolCert>, name: Name) {
    forall j :: 0 <= j < |pool| ==> pool[j].cert.subject != name
  }

  lemma {:induction false} PoolMatchIsFirst(pool: seq<PoolCert>, name: Name) returns (k: nat)
    ensures var r := FindIssuerInPool(pool, name);
            if r.None? then Unnamed(pool, name) else k < |pool| && FirstNamed(pool, k, name) && r.value == pool[k]
  {
    k := 0;
    if pool != [] && pool[0].cert.subject != name {
      var rest := pool[1..];
      var j := PoolMatchIsFirst(rest, name);
      k := j + 1;
      assert forall i :: 0 < i < |pool| ==> pool[i] == rest[i - 1];
    }
  }

  /** What an address has to serve: a certificate of the wanted name. */
  ghost predicate Serves(world: World, url: Address, name: Name, c: ChainCert) {
    world.serve(url) == Some(c) && c.subject == name
  }

  /** What becomes of `c` with the issuers `pool` at hand: its verdict, the pool
      afterwards, and where the walk turns if the verdict passes. */
  ghost predicate Reported(world: World, aiaFetch: bool, pool: seq<PoolCert>, c: ChainCert, verify: LinkVerify,
                           after: seq<PoolCert>, next: Option<PoolCert>)
  {
    if c.subject == c.issuer then
      after == pool && next == None && verify == if world.signedBy(c, c) then SelfSignedRoot else SignatureFailed
    else if Unnamed(pool, c.issuer) then
      if !aiaFetch || c.caIssuers == [] then after == pool && next == None && verify == IssuerMissing
      else
        var url := c.caIssuers[0];
        if world.serve(url).None? || world.serve(url).value.subject != c.issuer
        then after == pool && next == None && verify == AiaFetchFailed(url)
        else
          var fetched := PoolCert("aia:" + url, world.serve(url).value);
          && after == pool + [fetched]
          && if world.signedBy(c, fetched.cert) then verify == VerifiedViaAia(url) && next == Some(fetched)
             else verify == SignatureFailed && next == None
    else
      && after == pool
      && exists k :: 0 <= k < |pool| && FirstNamed(pool, k, c.issuer)
           && if world.signedBy(c, pool[k].cert) then verify == Verified && next == Some(pool[k])
              else verify == SignatureFailed && next == None
  }

  /** This step goes to the network, for the certificate's issuer name. */
  ghost predicate Asks(aiaFetch: bool, pool: seq<PoolCert>, c: ChainCert) {
    c.subject != c.issuer && Unnamed(pool, c.issuer) && aiaFetch && c.caIssuers != []
  }

  /** No two steps ask the network for one issuer name. */
  ghost predicate AsksOnce(aiaFetch: bool, pools: seq<seq<PoolCert>>, visited: seq<ChainCert>)
    requires |visited| <= |pools|
  {
    forall i, j :: 0 <= i < j < |visited| && Asks(aiaFetch, pools[i], visited[i]) && Asks(aiaFetch, pools[j], visited[j]) ==>
      visited[i].issuer != visited[j].issuer
  }

  /** What was asked for is known by now. */
  ghost predicate AskedAreKnown(aiaFetch: bool, pools: seq<seq<PoolCert>>, visited: seq<ChainCert>, pool: seq<PoolCert>)
    requires |visited| <= |pools|
  {
    forall i :: 0 <= i < |visited| && Asks(aiaFetch, pools[i], visited[i]) ==> !Unnamed(pool, visited[i].issuer)
  }

  /** Link by link, the report says what became of the certificates visited; the walk
      goes on from each to where the link before turned. */
  ghost predicate Report(world: World, aiaFetch: bool, pools: seq<seq<PoolCert>>, visited: seq<ChainCert>, links: seq<ChainLink>,
                         nexts: seq<Option<PoolCert>>)
  {
    && |links| == |visited| == |nexts| && |pools| == |visited| + 1
    && (forall i :: 0 <= i < |visited| ==>
          Reported(world, aiaFetch, pools[i], visited[i], links[i].verify, pools[i + 1], nexts[i]))
    && (forall i :: 0 <= i < |visited| - 1 ==>
          nexts[i].Some? && visited[i + 1] == nexts[i].value.cert && links[i + 1].source == nexts[i].value.source)
  }

  /** The body of the loop: what becomes of one certificate. */
  method WalkStep(world: World, aiaFetch: bool, pool: seq<PoolCert>, c: ChainCert)
      returns (verify: LinkVerify, after: seq<PoolCert>, next: Option<PoolCert>)
    ensures Reported(world, aiaFetch, pool, c, verify, after, next)
    ensures next.Some? <==> Passed(verify)
    ensures next.Some? ==> Follows(world, after, c, next.value.cert)
    ensures next.None? ==> Explains(world, after, c, verify)
  {
    after, next := pool, None;
    if SelfSigned(c) {
      verify := if world.signedBy(c, c) then SelfSignedRoot else SignatureFailed;
      return;
    }
    ghost var k := PoolMatchIsFirst(pool, c.issuer);
    var issuer, viaAia := FindIssuerInPool(pool, c.issuer), None;
    if issuer.None? && aiaFetch && c.caIssuers != [] {
      var url := c.caIssuers[0];
      var served := FetchAiaCert(world, url, c.issuer);
      if served.None? {
        verify := AiaFetchFailed(url);
        return;
      }
      var added := PoolCert("aia:" + url, served.value);
      FirstMatchIsStable(pool, added, c.issuer);
      after := pool + [added];
      issuer, viaAia := Some(added), Some(url);
    }
    if issuer.None? {
      verify := IssuerMissing;
      return;
    }
    var parent := issuer.value;
    if !world.signedBy(c, parent.cert) {
      verify := SignatureFailed;
      return;
    }
    verify, next := if viaAia.Some? then VerifiedViaAia(viaAia.value) else Verified, Some(parent);
  }

  /** Walk from `leaf` up.  `visited` are the certificates a link was reported for,
      `pools` the issuers known before each step and at the end. */
  method WalkChain(world: World, leafSource: string, leaf: ChainCert, issuers: seq<PoolCert>, aiaFetch: bool)
      returns (links: seq<ChainLink>, reachesRoot: bool, ghost visited: seq<ChainCert>,
               ghost pools: seq<seq<PoolCert>>, ghost nexts: seq<Option<PoolCert>>)
    // the report is what it says it is
    ensures Report(world, aiaFetch, pools, visited, links, nexts) && pools[0] == issuers
    ensures 1 <= |visited| <= 16 && visited[0] == leaf && links[0].source == leafSource
    ensures forall i :: 0 <= i < |links| ==> links[i].depth == i
    ensures reachesRoot <==> links[|links| - 1].verify == SelfSignedRoot
    // it goes on while links pass, up to the depth cap
    ensures Passed(links[|links| - 1].verify) ==> |visited| == 16
    // a name is never fetched twice, whatever happens
    ensures AsksOnce(aiaFetch, pools, visited)
    // no certificate twice, unless the cap cut the walk off
    ensures Linked(world, pools[|visited|], visited)
    ensures !Passed(links[|links| - 1].verify) ==>
              && Final(world, pools[|visited|], visited[|visited| - 1])
              && Distinct(visited) && forall i, j :: 0 <= i < j < |visited| - 1 ==> visited[i].issuer != visited[j].issuer
  {
    var pool, current, currentSource, depth := issuers, leaf, leafSource, 0;
    links, visited, pools, nexts := [], [], [issuers], [];
    reachesRoot := false;
    while depth < MAX_DEPTH
      invariant depth == |links| == |visited| <= MAX_DEPTH
      invariant Report(world, aiaFetch, pools, visited, links, nexts)
      invariant pools[0] == issuers && pools[|visited|] == pool
      invariant Onward(leafSource, leaf, visited, links, nexts, currentSource, current)
      invariant forall i :: 0 <= i < |links| ==> links[i].depth == i && Passed(links[i].verify)
      invariant Linked(world, pool, visited + [current])
      invariant AsksOnce(aiaFetch, pools, visited) && AskedAreKnown(aiaFetch, pools, visited, pool)
      decreases MAX_DEPTH - depth
    {
      var verify, after, next := WalkStep(world, aiaFetch, pool, current);
      var link := ChainLink(depth, currentSource, verify);
      ReportGrows(world, aiaFetch, pools, visited, links, nexts, current, link, after, next);
      AskingGrows(world, aiaFetch, pools, visited, current, verify, after, next);
      LinkedStays(world, aiaFetch, pool, current, verify, after, next, visited + [current]);
      links, nexts, pools := links + [link], nexts + [next], pools + [after];
      if next.None? {
        reachesRoot := verify == SelfSignedRoot;
        visited := visited + [current];
        EndedWalkIsAcyclic(world, after, visited);
        return;
      }
      LinkedExtends(world, after, visited, current, next.value.cert);
      visited := visited + [current];
      currentSource, current, pool, depth := next.value.source, next.value.cert, after, depth + 1;
    }
    LinkedPrefix(world, pool, visited, current);
  }

  /** The walk stands where its last link turned, or still at the leaf. */
  ghost predicate Onward(leafSource: string, leaf: ChainCert, visited: seq<ChainCert>, links: seq<ChainLink>,
                         nexts: seq<Option<PoolCert>>, source: string, current: ChainCert)
    requires |visited| == |links| == |nexts|
  {
    if visited == [] then current == leaf && source == leafSource
    else visited[0] == leaf && links[0].source == leafSource && nexts[|visited| - 1] == Some(PoolCert(source, current))
  }

  /** One more link at the end of a report. */
  lemma ReportGrows(world: World, aiaFetch: bool, pools: seq<seq<PoolCert>>, visited: seq<ChainCert>, links: seq<ChainLink>,
                    nexts: seq<Option<PoolCert>>, c: ChainCert, link: ChainLink, after: seq<PoolCert>, next: Option<PoolCert>)
    requires Report(world, aiaFetch, pools, visited, links, nexts)
    requires visited != [] ==> nexts[|visited| - 1] == Some(PoolCert(link.source, c))
    requires Reported(world, aiaFetch, pools[|visited|], c, link.verify, after, next)
    ensures Report(world, aiaFetch, pools + [after], visited + [c], links + [link], nexts + [next])
  {
    var n := |visited|;
    forall i | 0 <= i < n + 1
      ensures Reported(world, aiaFetch, (pools + [after])[i], (visited + [c])[i], (links + [link])[i].verify,
                       (pools + [after])[i + 1], (nexts + [next])[i])
    {
      if i < n {
        assert Reported(world, aiaFetch, pools[i], visited[i], links[i].verify, pools[i + 1], nexts[i]);
      }
    }
  }

  /** A step leaves the pool alone or appends one certificate. */
  lemma LinkedStays(world: World, aiaFetch: bool, pool: seq<PoolCert>, c: ChainCert, verify: LinkVerify, after: seq<PoolCert>,
                    next: Option<PoolCert>, visited: seq<ChainCert>)
    requires Reported(world, aiaFetch, pool, c, verify, after, next) && Linked(world, pool, visited)
    ensures Linked(world, after, visited)
  {
    if after != pool {
      LinkedSurvivesGrowth(world, pool, PoolCert("aia:" + c.caIssuers[0], world.serve(c.caIssuers[0]).value), visited);
    }
  }

  lemma NamedStaysNamed(pool: seq<PoolCert>, added: PoolCert, name: Name)
    requires !Unnamed(pool, name) || added.cert.subject == name
    ensures !Unnamed(pool + [added], name)
  {
    if !Unnamed(pool, name) {
      var j :| 0 <= j < |pool| && pool[j].cert.subject == name;
      assert (pool + [added])[j] == pool[j];
    } else {
      assert (pool + [added])[|pool|] == added;
    }
  }

  lemma AskingGrows(world: World, aiaFetch: bool, pools: seq<seq<PoolCert>>, visited: seq<ChainCert>, c: ChainCert,
                    verify: LinkVerify, after: seq<PoolCert>, next: Option<PoolCert>)
    requires |pools| == |visited| + 1 && Reported(world, aiaFetch, pools[|visited|], c, verify, after, next)
    requires AsksOnce(aiaFetch, pools, visited) && AskedAreKnown(aiaFetch, pools, visited, pools[|visited|])
    ensures AsksOnce(aiaFetch, pools + [after], visited + [c])
    ensures next.Some? ==> AskedAreKnown(aiaFetch, pools + [after], visited + [c], after)
  {
    var pool, longer := pools[|visited|], visited + [c];
    assert forall i :: 0 <= i < |visited| ==> (pools + [after])[i] == pools[i] && longer[i] == visited[i];
    if next.Some? {
      forall i | 0 <= i < |longer| && Asks(aiaFetch, (pools + [after])[i], longer[i])
        ensures !Unnamed(after, longer[i].issuer)
      {
        if after != pool {
          NamedStaysNamed(pool, PoolCert("aia:" + c.caIssuers[0], world.serve(c.caIssuers[0]).value), longer[i].issuer);
        }
      }
    }
  }

  predicate Passed(v: LinkVerify) {
    v.Verified? || v.VerifiedViaAia?
  }

  /** Why the walk ends at `c`. */
  ghost predicate Explains(world: World, pool: seq<PoolCert>, c: ChainCert, verify: LinkVerify) {
    && !Passed(verify)
    && Final(world, pool, c)
    && (verify == SelfSignedRoot <==> SelfSigned(c) && world.signedBy(c, c))
  }

  lemma LinkedExtends(world: World, pool: seq<PoolCert>, visited: seq<ChainCert>, current: ChainCert, parent: ChainCert)
    requires Linked(world, pool, visited + [current]) && Follows(world, pool, current, parent)
    ensures Linked(world, pool, visited + [current] + [parent])
  {
    var seen := visited + [current];
    forall i | 0 <= i < |seen|
      ensures Follows(world, pool, (seen + [parent])[i], (seen + [parent])[i + 1])
    {
      if i < |visited| {
        assert Follows(world, pool, seen[i], seen[i + 1]);
      }
    }
  }

  lemma LinkedPrefix(world: World, pool: seq<PoolCert>, visited: seq<ChainCert>, next: ChainCert)
    requires Linked(world, pool, visited + [next])
    ensures Linked(world, pool, visited)
  {
    forall i | 0 <= i < |visited| - 1
      ensures Follows(world, pool, visited[i], visited[i + 1])
    {
      assert Follows(world, pool, (visited + [next])[i], (visited + [next])[i + 1]);
    }
  }
}
