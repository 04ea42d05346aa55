/** Exactly which path a climb takes and why it ends, stated on the certificates
    alone: a greedy climb that always goes to the first issuer that fits. */
module PathExact {
  import opened Basics
  import opened Http
  import opened Certificates
  import opened PathBuilder
  import opened IssuerRules
  import opened PathSoundness

  // ----- the choice of one issuer

  /** What a CA Issuers address serves, if it fits. */
  ghost predicate ServesFitting(env: Env, child: Cert, u: Uri, d: Der, t: int, below: nat, anchors: seq<Der>) {
    && GetRun(env.web, CertificateMaterial, u).outcome.Ok?
    && env.decodeCertificate(GetRun(env.web, CertificateMaterial, u).outcome.value) == Some(d)
    && Fits(env, child, d, t, below, anchors)
  }

  ghost predicate NothingServed(env: Env, child: Cert, u: Uri, t: int, below: nat, anchors: seq<Der>) {
    forall d :: !ServesFitting(env, child, u, d, t, below, anchors)
  }

  /** The `k`-th of the known certificates, anchors first, is the first that fits. */
  ghost predicate FirstKnown(env: Env, child: Cert, t: int, below: nat, anchors: seq<Der>, known: seq<Der>, k: nat)
    requires k < |known|
  {
    && FitsAt(env, child, t, below, anchors, known, k)
    && forall j :: 0 <= j < k ==> !FitsAt(env, child, t, below, anchors, known, j)
  }

  ghost predicate NoneKnown(env: Env, child: Cert, t: int, below: nat, anchors: seq<Der>, known: seq<Der>) {
    forall j :: 0 <= j < |known| ==> !FitsAt(env, child, t, below, anchors, known, j)
  }

  /** The `k`-th of the addresses is the first that serves a fitting certificate. */
  ghost predicate FirstServed(env: Env, child: Cert, t: int, below: nat, anchors: seq<Der>, urls: seq<Uri>, k: nat, d: Der)
    requires k < |urls|
  {
    && ServesFitting(env, child, urls[k], d, t, below, anchors)
    && forall j :: 0 <= j < k ==> NothingServed(env, child, urls[j], t, below, anchors)
  }

  ghost predicate NoneServed(env: Env, child: Cert, t: int, below: nat, anchors: seq<Der>, urls: seq<Uri>) {
    forall j :: 0 <= j < |urls| ==> NothingServed(env, child, urls[j], t, below, anchors)
  }

  /** The CA Issuers addresses that are tried: the first three different ones. */
  ghost predicate Tried(child: Cert, urls: seq<Uri>) {
    if child.extensions.None? then urls == [] else FirstThree(child.extensions.value.caIssuers, urls)
  }

  /** The issuer a greedy climb goes to: the first known certificate that fits, else
      the first one served that fits, else none. */
  ghost predicate Chosen(env: Env, child: Cert, t: int, below: nat, anchors: seq<Der>, candidates: seq<Der>, r: Option<Der>) {
    var known := anchors + candidates;
    || (r.Some? && exists k :: 0 <= k < |known| && known[k] == r.value && FirstKnown(env, child, t, below, anchors, known, k))
    || (NoneKnown(env, child, t, below, anchors, known)
        && exists urls :: Tried(child, urls)
             && if r.Some? then exists k :: 0 <= k < |urls| && FirstServed(env, child, t, below, anchors, urls, k, r.value)
                else NoneServed(env, child, t, below, anchors, urls))
  }

  lemma LocalChoice(env: Env, child: Cert, t: int, below: nat, anchors: seq<Der>, known: seq<Der>)
    ensures var r := FirstLocal(env, child, t, below, anchors, known);
            if r.None? then NoneKnown(env, child, t, below, anchors, known)
            else exists k :: 0 <= k < |known| && known[k] == r.value && FirstKnown(env, child, t, below, anchors, known, k)
  {
    var k := FirstLocalIsFirst(env, child, t, below, anchors, known);
    if FirstLocal(env, child, t, below, anchors, known).Some? {
      assert FirstKnown(env, child, t, below, anchors, known, k);
    }
  }

  lemma ServedMeans(env: Env, child: Cert, u: Uri, t: int, below: nat, anchors: seq<Der>)
    ensures var d := FetchIssuer(env, u);
            if d.Some? && IssuerFits(env, child, d.value, t, below, anchors)
            then ServesFitting(env, child, u, d.value, t, below, anchors)
            else NothingServed(env, child, u, t, below, anchors)
  {
    var d := FetchIssuer(env, u);
    if d.Some? {
      FitsMeans(env, child, d.value, t, below, anchors);
    }
  }

  lemma {:induction false} FetchedChoice(env: Env, child: Cert, t: int, below: nat, anchors: seq<Der>, urls: seq<Uri>)
    ensures var r := FirstFetched(env, child, t, below, anchors, urls);
            if r.None? then NoneServed(env, child, t, below, anchors, urls)
            else exists k :: 0 <= k < |urls| && FirstServed(env, child, t, below, anchors, urls, k, r.value)
    decreases |urls|
  {
    if urls != [] {
      var rest, r := urls[1..], FirstFetched(env, child, t, below, anchors, urls);
      var d := FetchIssuer(env, urls[0]);
      ServedMeans(env, child, urls[0], t, below, anchors);
      if d.Some? && IssuerFits(env, child, d.value, t, below, anchors) {
        assert FirstServed(env, child, t, below, anchors, urls, 0, d.value);
      } else {
        FetchedChoice(env, child, t, below, anchors, rest);
        if r.Some? {
          var k :| 0 <= k < |rest| && FirstServed(env, child, t, below, anchors, rest, k, r.value);
          assert urls[k + 1] == rest[k];
          assert forall j :: 0 <= j < k + 1 ==> j == 0 || urls[j] == rest[j - 1];
          assert FirstServed(env, child, t, below, anchors, urls, k + 1, r.value);
        } else {
          assert forall j :: 0 < j < |urls| ==> urls[j] == rest[j - 1];
        }
      }
    }
  }

  lemma ChoiceIsGreedy(env: Env, child: Cert, t: int, below: nat, anchors: seq<Der>, candidates: seq<Der>)
    ensures Chosen(env, child, t, below, anchors, candidates, IssuerOf(env, child, t, below, anchors, candidates))
  {
    LocalChoice(env, child, t, below, anchors, anchors + candidates);
    if FirstLocal(env, child, t, below, anchors, anchors + candidates).None? {
      if child.extensions.Some? {
        var urls := Bounded(child.extensions.value.caIssuers);
        BoundedIsFirstThree(child.extensions.value.caIssuers);
        FetchedChoice(env, child, t, below, anchors, urls);
        assert Tried(child, urls);
      } else {
        assert Tried(child, []) && NoneServed(env, child, t, below, anchors, []);
      }
    }
  }

  // ----- the whole climb

  /** Certificate `i` is not the last: it passes, and the next is its chosen issuer
      among the anchors, the candidates and what the climb met before. */
  ghost predicate ClimbsAt(env: Env, t: int, anchors: seq<Der>, candidates: seq<Der>, chain: seq<Der>, i: nat)
    requires i + 1 < |chain|
  {
    && Current(env, t, chain[i])
    && chain[i] !in chain[..i] && i < 8 && chain[i] !in anchors
    && Applicable(env.parse(chain[i]).value)
    && Chosen(env, env.parse(chain[i]).value, t, SubordinatesBelow(env, chain, i + 1), anchors,
              MergeUnique(candidates, chain[1..i + 1]), Some(chain[i + 1]))
  }

  /** Why the climb ends at its last certificate, the first reason that applies. */
  ghost predicate EndsWith(env: Env, t: int, anchors: seq<Der>, candidates: seq<Der>, chain: seq<Der>, failure: Option<MaterialError>)
    requires chain != []
  {
    var n := |chain| - 1;
    if !Current(env, t, chain[n]) then failure == Some(BadCertificate)
    else if chain[n] in chain[..n] then failure == Some(ChainCycle)
    else if n >= 8 then failure == Some(ChainTooDeep)
    else if chain[n] in anchors then failure == None
    else if !Applicable(env.parse(chain[n]).value) then failure == Some(BadCertificate)
    else
      && failure == Some(NoIssuer)
      && Chosen(env, env.parse(chain[n]).value, t, SubordinatesBelow(env, chain, |chain|), anchors,
                MergeUnique(candidates, chain[1..]), None)
  }

  ghost predicate GreedyClimb(env: Env, t: int, anchors: seq<Der>, candidates: seq<Der>, leaf: Der, p: Climbed) {
    if anchors == [] then p == Climbed([leaf], Some(NoTrustAnchor))
    else
      && p.chain != [] && p.chain[0] == leaf
      && (forall i :: 0 <= i < |p.chain| - 1 ==> ClimbsAt(env, t, anchors, candidates, p.chain, i))
      && EndsWith(env, t, anchors, candidates, p.chain, p.failure)
  }

  /** The part behind a climb that stands at `current` with `visited` behind it. */
  ghost predicate ClimbedTo(env: Env, t: int, anchors: seq<Der>, candidates: seq<Der>, visited: seq<Der>, current: Der, count: nat,
                            known: seq<Der>)
  {
    var seen := visited + [current];
    && |visited| <= 8
    && count == SubordinatesBelow(env, seen, |visited|)
    && known == MergeUnique(candidates, seen[1..])
    && forall i :: 0 <= i < |seen| - 1 ==> ClimbsAt(env, t, anchors, candidates, seen, i)
  }

  lemma ClimbsAtExtends(env: Env, t: int, anchors: seq<Der>, candidates: seq<Der>, seen: seq<Der>, next: Der, i: nat)
    requires i + 1 < |seen| && ClimbsAt(env, t, anchors, candidates, seen, i)
    ensures ClimbsAt(env, t, anchors, candidates, seen + [next], i)
  {
    var longer := seen + [next];
    SubordinatesBelowPrefix(env, seen, longer, i + 1);
    assert longer[..i] == seen[..i] && longer[1..i + 1] == seen[1..i + 1];
  }

  lemma StepIsGreedy(env: Env, t: int, anchors: seq<Der>, candidates: seq<Der>, visited: seq<Der>, current: Der, count: nat,
                     known: seq<Der>, issuer: Der)
    requires ClimbedTo(env, t, anchors, candidates, visited, current, count, known)
    requires Passable(env, t, anchors, visited, current)
    requires var c := env.parse(current).value; IssuerOf(env, c, t, NextCount(c, count), anchors, known) == Some(issuer)
    ensures ClimbedTo(env, t, anchors, candidates, visited + [current], issuer, NextCount(env.parse(current).value, count),
                      PushUnique(known, issuer))
  {
    var c, seen := env.parse(current).value, visited + [current];
    var longer := seen + [issuer];
    ProfileIsApplicable(c);
    CountIsSubordinates(env, visited, current, count);
    SubordinatesBelowPrefix(env, seen, longer, |seen|);
    ChoiceIsGreedy(env, c, t, NextCount(c, count), anchors, known);
    MergeUniqueSnoc(candidates, seen[1..], issuer);
    assert longer[1..] == seen[1..] + [issuer];
    forall i | 0 <= i < |longer| - 1
      ensures ClimbsAt(env, t, anchors, candidates, longer, i)
    {
      if i < |visited| {
        ClimbsAtExtends(env, t, anchors, candidates, seen, issuer, i);
      } else {
        assert longer[..i] == visited && longer[1..i + 1] == seen[1..];
      }
    }
  }

  lemma EndIsGreedy(env: Env, t: int, anchors: seq<Der>, candidates: seq<Der>, visited: seq<Der>, current: Der, count: nat,
                    known: seq<Der>)
    requires ClimbedTo(env, t, anchors, candidates, visited, current, count, known)
    requires Passable(env, t, anchors, visited, current) ==>
               var c := env.parse(current).value; IssuerOf(env, c, t, NextCount(c, count), anchors, known).None?
    ensures var here := Climb(env, t, anchors, known, visited, current, count);
            here.chain == [current] && EndsWith(env, t, anchors, candidates, visited + [current], here.failure)
  {
    var seen := visited + [current];
    assert seen[..|visited|] == visited;
    if env.parse(current).Some? {
      var c := env.parse(current).value;
      ProfileIsApplicable(c);
      if Passable(env, t, anchors, visited, current) {
        CountIsSubordinates(env, visited, current, count);
        ChoiceIsGreedy(env, c, t, NextCount(c, count), anchors, known);
      }
    }
  }

  lemma {:induction false} ClimbIsGreedy(env: Env, t: int, anchors: seq<Der>, candidates: seq<Der>, visited: seq<Der>, current: Der,
                                         count: nat, known: seq<Der>)
    requires ClimbedTo(env, t, anchors, candidates, visited, current, count, known)
    ensures var here := Climb(env, t, anchors, known, visited, current, count);
            var chain := visited + here.chain;
            && (forall i :: 0 <= i < |chain| - 1 ==> ClimbsAt(env, t, anchors, candidates, chain, i))
            && EndsWith(env, t, anchors, candidates, chain, here.failure)
    decreases 8 - |visited|
  {
    var found := if Passable(env, t, anchors, visited, current)
                 then IssuerOf(env, env.parse(current).value, t, NextCount(env.parse(current).value, count), anchors, known)
                 else None;
    if found.Some? {
      ClimbUnfolds(env, t, anchors, known, visited, current, count);
      StepIsGreedy(env, t, anchors, candidates, visited, current, count, known, found.value);
      ClimbIsGreedy(env, t, anchors, candidates, visited + [current], found.value,
                    NextCount(env.parse(current).value, count), PushUnique(known, found.value));
    } else {
      EndIsGreedy(env, t, anchors, candidates, visited, current, count, known);
    }
  }

  /** Both loops take exactly the greedy climb, and end for the first reason there is. */
  lemma PathIsGreedy(env: Env, t: int, anchors: seq<Der>, candidates: seq<Der>, leaf: Der)
    ensures GreedyClimb(env, t, anchors, candidates, leaf, Path(env, t, anchors, candidates, leaf))
  {
    if anchors != [] {
      var visited: seq<Der> := [];
      assert visited + [leaf] == [leaf] && [leaf][1..] == [];
      assert ClimbedTo(env, t, anchors, candidates, visited, leaf, 0, candidates);
      ClimbIsGreedy(env, t, anchors, candidates, visited, leaf, 0, candidates);
      var p := Path(env, t, anchors, candidates, leaf);
      assert visited + p.chain == p.chain;
    }
  }
}
