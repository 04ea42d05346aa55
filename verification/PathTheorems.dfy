/** What an accepted path is worth: soundness, the path-length rule over the whole
    chain, agreement of the two loops, and all-or-nothing collection. */
module PathTheorems {
  import opened Basics
  import opened Certificates
  import opened PathBuilder
  import opened PathSoundness
  import opened PathExact
  import opened EvidenceStore
  import opened ChainCollector

  // ----- soundness of an accepted path

  lemma {:induction false} ClimbExtendsSound(env: Env, t: int, anchors: seq<Der>, candidates: seq<Der>, visited: seq<Der>,
                                             current: Der, count: nat)
    requires Ascending(env, t, anchors, visited, current, count)
    requires Climb(env, t, anchors, candidates, visited, current, count).failure.None?
    ensures SoundPath(env, t, anchors, visited + Climb(env, t, anchors, candidates, visited, current, count).chain)
    decreases MAX_DEPTH - |visited|
  {
    if current in anchors {
      AscentEnds(env, t, anchors, visited, current, count);
    } else {
      ClimbUnfolds(env, t, anchors, candidates, visited, current, count);
      var issuer := Climb(env, t, anchors, candidates, visited, current, count).chain[1];
      AscentRises(env, t, anchors, visited, current, count, issuer);
      ClimbExtendsSound(env, t, anchors, PushUnique(candidates, issuer), visited + [current], issuer,
                        NextCount(env.parse(current).value, count));
    }
  }

  /** Every path either loop accepts is sound, and starts at the leaf. */
  lemma AcceptedPathIsSound(env: Env, t: int, anchors: seq<Der>, candidates: seq<Der>, leaf: Der)
    ensures var p := Path(env, t, anchors, candidates, leaf);
            p.failure.None? ==> SoundPath(env, t, anchors, p.chain) && p.chain[0] == leaf
  {
    var p := Path(env, t, anchors, candidates, leaf);
    if p.failure.None? {
      AscentStarts(env, t, anchors, leaf);
      ClimbExtendsSound(env, t, anchors, candidates, [], leaf, 0);
      assert [] + p.chain == p.chain;
    }
  }

  // ----- the path-length rule

  /** Section 4.2.1.9 of RFC 5280: certificates that follow in the path, the end
      entity not counted. */
  ghost function IntermediatesBelow(env: Env, chain: seq<Der>, n: nat): nat
    requires n <= |chain|
  {
    if n <= 1 then 0
    else
      IntermediatesBelow(env, chain, n - 1)
      + if env.parse(chain[n - 1]).Some? && env.parse(chain[n - 1]).value.issuer != env.parse(chain[n - 1]).value.subject
        then 1 else 0
  }

  ghost function PathLenOf(env: Env, d: Der): Option<nat> {
    if env.parse(d).Some? && env.parse(d).value.extensions.Some? && env.parse(d).value.extensions.value.profile.Some?
    then env.parse(d).value.extensions.value.profile.value.constraints.pathLen else None
  }

  lemma {:induction false} IntermediatesAreSubordinates(env: Env, t: int, anchors: seq<Der>, chain: seq<Der>, n: nat)
    requires SoundPath(env, t, anchors, chain) && n < |chain|
    ensures IntermediatesBelow(env, chain, n) <= SubordinatesBelow(env, chain, n)
    decreases n
  {
    if n > 1 {
      IntermediatesAreSubordinates(env, t, anchors, chain, n - 1);
      assert SoundLink(env, t, anchors, chain, n - 2) && SoundLink(env, t, anchors, chain, n - 1);
    }
  }

  /** On a sound path every non-anchor CA with pathLen L has at most L
      non-self-issued CA certificates below it, a CA leaf counted; hence the limit
      of RFC 5280, which does not count the leaf. */
  lemma PathLengthRule(env: Env, t: int, anchors: seq<Der>, chain: seq<Der>, i: nat)
    requires SoundPath(env, t, anchors, chain) && 1 <= i < |chain|
    ensures chain[i] !in anchors && PathLenOf(env, chain[i]).Some? ==>
              && SubordinatesBelow(env, chain, i) <= PathLenOf(env, chain[i]).value
              && IntermediatesBelow(env, chain, i) <= PathLenOf(env, chain[i]).value
  {
    assert SoundLink(env, t, anchors, chain, i - 1);
    IntermediatesAreSubordinates(env, t, anchors, chain, i);
  }

  // ----- the two loops agree

  ghost predicate LinksAreEvidenced(env: Env, policy: NoncePolicy, now: int, chain: seq<Der>, m: Material) {
    forall i :: 0 <= i < |chain| - 1 ==>
      LinkStatus(env, policy, now, chain[i], chain[i + 1]).Ok?
      && HasEvidence(m, LinkStatus(env, policy, now, chain[i], chain[i + 1]).value)
  }

  lemma EvidenceSurvives(env: Env, policy: NoncePolicy, now: int, chain: seq<Der>, m: Material, larger: Material)
    requires LinksAreEvidenced(env, policy, now, chain, m) && Grows(m, larger)
    ensures LinksAreEvidenced(env, policy, now, chain, larger)
  {
  }

  lemma EvidenceExtends(env: Env, policy: NoncePolicy, now: int, chain: seq<Der>, m: Material)
    requires |chain| >= 2 && LinksAreEvidenced(env, policy, now, chain[..|chain| - 1], m)
    requires var last := LinkStatus(env, policy, now, chain[|chain| - 2], chain[|chain| - 1]);
             last.Ok? && HasEvidence(m, last.value)
    ensures LinksAreEvidenced(env, policy, now, chain, m)
  {
    var shorter := chain[..|chain| - 1];
    forall i | 0 <= i < |chain| - 1
      ensures var s := LinkStatus(env, policy, now, chain[i], chain[i + 1]); s.Ok? && HasEvidence(m, s.value)
    {
      if i < |chain| - 2 {
        assert shorter[i] == chain[i] && shorter[i + 1] == chain[i + 1];
      }
    }
  }

  lemma {:induction false} AddEvidenceCovers(env: Env, policy: NoncePolicy, now: int, m: Material, chain: seq<Der>)
    requires LinksHaveStatus(env, policy, now, chain)
    ensures var r := AddEvidence(env, policy, now, m, chain);
            && LinksAreEvidenced(env, policy, now, chain, r)
            && Grows(m, r)
            && r.certificates == m.certificates
            && (NoRepeats(m) ==> NoRepeats(r))
    decreases |chain|
  {
    if |chain| >= 2 {
      var shorter := chain[..|chain| - 1];
      forall i | 0 <= i < |shorter| - 1
        ensures LinkStatus(env, policy, now, shorter[i], shorter[i + 1]).Ok?
      {
        assert LinkStatus(env, policy, now, chain[i], chain[i + 1]).Ok?;
      }
      AddEvidenceCovers(env, policy, now, m, shorter);
      var last := LinkStatus(env, policy, now, chain[|chain| - 2], chain[|chain| - 2 + 1]);
      var before := AddEvidence(env, policy, now, m, shorter);
      AddStatusCovers(before, last.value);
      EvidenceSurvives(env, policy, now, shorter, before, AddStatus(before, last.value));
      EvidenceExtends(env, policy, now, chain, AddStatus(before, last.value));
    }
  }

  /** Link `k` is the first without a status answer. */
  ghost predicate FirstUnanswered(env: Env, policy: NoncePolicy, now: int, chain: seq<Der>, k: nat)
    requires k + 1 < |chain|
  {
    && LinkStatus(env, policy, now, chain[k], chain[k + 1]).Err?
    && forall j :: 0 <= j < k ==> LinkStatus(env, policy, now, chain[j], chain[j + 1]).Ok?
  }

  lemma FailsAtFirstUnanswered(env: Env, start: ChainStart, now: int, candidates: seq<Der>, k: nat)
    requires k + 1 < |PathOf(env, start, candidates).chain|
    requires FirstUnanswered(env, start.policy, now, PathOf(env, start, candidates).chain, k)
    ensures var chain := PathOf(env, start, candidates).chain;
            WalkFailure(env, start, now, candidates) == Some(LinkStatus(env, start.policy, now, chain[k], chain[k + 1]).error)
  {
    var chain := PathOf(env, start, candidates).chain;
    assert chain[..k + 1] + [chain[k + 1]] == chain[..k + 2];
    StatusFailsHere(env, start.policy, now, chain, chain[..k + 1], chain[k + 1]);
  }

  lemma {:induction false} SomeLinkIsFirst(env: Env, policy: NoncePolicy, now: int, chain: seq<Der>, bad: nat) returns (k: nat)
    requires bad + 1 < |chain| && LinkStatus(env, policy, now, chain[bad], chain[bad + 1]).Err?
    ensures k <= bad && FirstUnanswered(env, policy, now, chain, k)
    decreases bad
  {
    k := bad;
    if j :| 0 <= j < bad && LinkStatus(env, policy, now, chain[j], chain[j + 1]).Err? {
      k := SomeLinkIsFirst(env, policy, now, chain, j);
    }
  }

  /** Loop agreement.  From the same candidates the walk succeeds exactly when the
      authenticating loop returns a path and every status query along it succeeds;
      otherwise it reports the first failing query or, without one, the very error
      the authenticating loop reports.  What a successful walk adds to the store is
      that path, the leaf and the anchor as its flags say. */
  lemma LoopsAgree(env: Env, start: ChainStart, now: int, candidates: seq<Der>, m: Material)
    ensures var p := PathOf(env, start, candidates);
            var failure := WalkFailure(env, start, now, candidates);
            && (failure.None? <==> p.failure.None? && LinksHaveStatus(env, start.policy, now, p.chain))
            && (LinksHaveStatus(env, start.policy, now, p.chain) ==> failure == p.failure)
            && (!LinksHaveStatus(env, start.policy, now, p.chain) ==>
                  exists k :: 0 <= k < |p.chain| - 1 && FirstUnanswered(env, start.policy, now, p.chain, k)
                              && failure == Some(LinkStatus(env, start.policy, now, p.chain[k], p.chain[k + 1]).error))
            && (failure.None? ==>
                  var stored := WalkMaterial(env, start, now, candidates, m);
                  && Elements(stored.certificates)
                     == Elements(m.certificates) + Elements(Retained(p.chain, start.includeLeaf, start.includeAnchor))
                  && LinksAreEvidenced(env, start.policy, now, p.chain, stored)
                  && Grows(m, stored)
                  && (NoRepeats(m) ==> NoRepeats(stored)))
  {
    var p := PathOf(env, start, candidates);
    NoStatusFailureMeansAll(env, start.policy, now, p.chain);
    if LinksHaveStatus(env, start.policy, now, p.chain) {
      WalkStores(env, start, now, candidates, m);
    } else {
      WalkFailsFirst(env, start, now, candidates);
    }
  }

  lemma WalkFailsFirst(env: Env, start: ChainStart, now: int, candidates: seq<Der>)
    requires !LinksHaveStatus(env, start.policy, now, PathOf(env, start, candidates).chain)
    ensures var chain := PathOf(env, start, candidates).chain;
            exists k :: 0 <= k < |chain| - 1 && FirstUnanswered(env, start.policy, now, chain, k)
                        && WalkFailure(env, start, now, candidates)
                           == Some(LinkStatus(env, start.policy, now, chain[k], chain[k + 1]).error)
  {
    var chain := PathOf(env, start, candidates).chain;
    var bad :| 0 <= bad < |chain| - 1 && LinkStatus(env, start.policy, now, chain[bad], chain[bad + 1]).Err?;
    var k := SomeLinkIsFirst(env, start.policy, now, chain, bad);
    FailsAtFirstUnanswered(env, start, now, candidates, k);
  }

  lemma WalkStores(env: Env, start: ChainStart, now: int, candidates: seq<Der>, m: Material)
    requires LinksHaveStatus(env, start.policy, now, PathOf(env, start, candidates).chain)
    ensures var chain := PathOf(env, start, candidates).chain;
            var stored := WalkMaterial(env, start, now, candidates, m);
            && Elements(stored.certificates)
               == Elements(m.certificates) + Elements(Retained(chain, start.includeLeaf, start.includeAnchor))
            && LinksAreEvidenced(env, start.policy, now, chain, stored)
            && Grows(m, stored)
            && (NoRepeats(m) ==> NoRepeats(stored))
  {
    var chain := PathOf(env, start, candidates).chain;
    AddEvidenceCovers(env, start.policy, now, m, chain);
    MergeUniqueIsUnion(m.certificates, Retained(chain, start.includeLeaf, start.includeAnchor));
    var with := AddEvidence(env, start.policy, now, m, chain);
    var stored := WalkMaterial(env, start, now, candidates, m);
    assert stored.ocspResponses == with.ocspResponses && stored.crls == with.crls;
  }

  // ----- many chains

  ghost function Paths(env: Env, starts: seq<ChainStart>, candidates: seq<Der>): (r: seq<Climbed>)
    ensures |r| == |starts| && forall i :: 0 <= i < |r| ==> r[i].chain != []
    decreases |starts|
  {
    if starts == [] then []
    else [PathOf(env, starts[0], candidates)] + Paths(env, starts[1..], After(env, starts[0], candidates))
  }

  ghost predicate Accepted(env: Env, start: ChainStart, now: int, p: Climbed) {
    p.failure.None? && LinksHaveStatus(env, start.policy, now, p.chain)
  }

  /** Certificates every start contributes. */
  ghost function Contributed(starts: seq<ChainStart>, paths: seq<Climbed>): set<Der>
    requires |starts| == |paths| && forall i :: 0 <= i < |paths| ==> paths[i].chain != []
  {
    if starts == [] then {}
    else Elements(Retained(paths[0].chain, starts[0].includeLeaf, starts[0].includeAnchor)) + Contributed(starts[1..], paths[1..])
  }

  lemma {:induction false} CollectFromSucceedsWhen(env: Env, starts: seq<ChainStart>, now: int, candidates: seq<Der>, m: Material)
    ensures CollectFrom(env, starts, now, candidates, m).Ok?
            <==> forall i :: 0 <= i < |starts| ==> Accepted(env, starts[i], now, Paths(env, starts, candidates)[i])
    decreases |starts|
  {
    if starts != [] {
      var start, rest := starts[0], starts[1..];
      var ps := Paths(env, starts, candidates);
      LoopsAgree(env, start, now, candidates, m);
      CollectFromSucceedsWhen(env, rest, now, After(env, start, candidates), WalkMaterial(env, start, now, candidates, m));
      if Accepted(env, start, now, ps[0]) {
        assert forall i :: 0 <= i < |rest| ==> starts[i + 1] == rest[i] && ps[i + 1] == ps[1..][i];
        assert forall i :: 0 < i < |starts| ==> starts[i] == rest[i - 1] && ps[i] == ps[1..][i - 1];
      }
    }
  }

  lemma {:induction false} CollectFromStores(env: Env, starts: seq<ChainStart>, now: int, candidates: seq<Der>, m: Material)
    requires CollectFrom(env, starts, now, candidates, m).Ok?
    ensures var stored := CollectFrom(env, starts, now, candidates, m).value;
            var ps := Paths(env, starts, candidates);
            && Grows(m, stored)
            && Elements(stored.certificates) == Elements(m.certificates) + Contributed(starts, ps)
            && (NoRepeats(m) ==> NoRepeats(stored))
            && forall i :: 0 <= i < |starts| ==> LinksAreEvidenced(env, starts[i].policy, now, ps[i].chain, stored)
    decreases |starts|
  {
    if starts != [] {
      var start, rest := starts[0], starts[1..];
      var ps := Paths(env, starts, candidates);
      LoopsAgree(env, start, now, candidates, m);
      var later, m' := After(env, start, candidates), WalkMaterial(env, start, now, candidates, m);
      CollectFromStores(env, rest, now, later, m');
      var stored := CollectFrom(env, starts, now, candidates, m).value;
      EvidenceSurvives(env, start.policy, now, ps[0].chain, m', stored);
      assert ps[1..] == Paths(env, rest, later);
      forall i | 0 < i < |starts|
        ensures LinksAreEvidenced(env, starts[i].policy, now, ps[i].chain, stored)
      {
        assert starts[i] == rest[i - 1] && ps[i] == ps[1..][i - 1];
      }
    }
  }

  /** All or nothing: a store is returned exactly when every start's path is
      accepted, and then it holds, as a set, exactly the retained certificates of
      those sound paths, evidence for every non-anchor on them, and no repetition. */
  lemma CollectIsAllOrNothing(env: Env, starts: seq<ChainStart>, extra: seq<Der>, now: int)
    requires starts != []
    ensures var candidates := MergeUnique([], Leaves(starts) + extra);
            var r := Collect(env, starts, extra, now);
            var ps := Paths(env, starts, candidates);
            && (r.Ok? <==> forall i :: 0 <= i < |starts| ==> Accepted(env, starts[i], now, ps[i]))
            && (r.Ok? ==>
                  && Elements(r.value.certificates) == Contributed(starts, ps)
                  && NoRepeats(r.value)
                  && forall i :: 0 <= i < |starts| ==>
                       && SoundPath(env, starts[i].referenceTime, starts[i].anchors, ps[i].chain)
                       && ps[i].chain[0] == starts[i].leaf
                       && LinksAreEvidenced(env, starts[i].policy, now, ps[i].chain, r.value))
  {
    var candidates := MergeUnique([], Leaves(starts) + extra);
    CollectFromSucceedsWhen(env, starts, now, candidates, EMPTY);
    if Collect(env, starts, extra, now).Ok? {
      CollectFromStores(env, starts, now, candidates, EMPTY);
    }
    assert Elements(EMPTY.certificates) == {};
    PathsAreSound(env, starts, candidates);
  }

  lemma {:induction false} PathsAreSound(env: Env, starts: seq<ChainStart>, candidates: seq<Der>)
    ensures var ps := Paths(env, starts, candidates);
            forall i :: 0 <= i < |starts| && ps[i].failure.None? ==>
              SoundPath(env, starts[i].referenceTime, starts[i].anchors, ps[i].chain) && ps[i].chain[0] == starts[i].leaf
    decreases |starts|
  {
    if starts != [] {
      var ps, rest := Paths(env, starts, candidates), starts[1..];
      var later := After(env, starts[0], candidates);
      AcceptedPathIsSound(env, starts[0].referenceTime, starts[0].anchors, candidates, starts[0].leaf);
      PathsAreSound(env, rest, later);
      forall i | 0 < i < |starts| && ps[i].failure.None?
        ensures SoundPath(env, starts[i].referenceTime, starts[i].anchors, ps[i].chain) && ps[i].chain[0] == starts[i].leaf
      {
        assert starts[i] == rest[i - 1] && ps[i] == Paths(env, rest, later)[i - 1];
      }
    }
  }

  /** The certificates that paths met above their leaves, in order. */
  ghost function Met(paths: seq<Climbed>): seq<Der>
    requires forall i :: 0 <= i < |paths| ==> paths[i].chain != []
  {
    if paths == [] then [] else paths[0].chain[1..] + Met(paths[1..])
  }

  /** Start after start, each path is the greedy climb from its leaf with the given
      candidates and everything the earlier paths met. */
  lemma {:induction false} PathsAreGreedy(env: Env, starts: seq<ChainStart>, candidates: seq<Der>, i: nat)
    requires i < |starts|
    ensures var ps := Paths(env, starts, candidates);
            GreedyClimb(env, starts[i].referenceTime, starts[i].anchors, MergeUnique(candidates, Met(ps[..i])), starts[i].leaf, ps[i])
    decreases |starts|
  {
    var start, ps := starts[0], Paths(env, starts, candidates);
    if i == 0 {
      PathIsGreedy(env, start.referenceTime, start.anchors, candidates, start.leaf);
      assert ps[..0] == [];
    } else {
      var rest := Paths(env, starts[1..], After(env, start, candidates));
      PathsAreGreedy(env, starts[1..], After(env, start, candidates), i - 1);
      LaterCandidates(ps[0], rest[..i - 1], candidates);
      assert ps[..i] == [ps[0]] + rest[..i - 1] && ps[i] == rest[i - 1];
    }
  }

  lemma LaterCandidates(first: Climbed, rest: seq<Climbed>, candidates: seq<Der>)
    requires first.chain != [] && forall i :: 0 <= i < |rest| ==> rest[i].chain != []
    ensures MergeUnique(candidates, Met([first] + rest)) == MergeUnique(MergeUnique(candidates, first.chain[1..]), Met(rest))
  {
    assert ([first] + rest)[1..] == rest;
    MergeUniqueConcat(candidates, first.chain[1..], Met(rest));
  }
}
