/** What makes a path worth trusting, and how a loop that climbs one step at a time
    keeps it so whatever it is served. */
module PathSoundness {
  import opened Basics
  import opened Certificates
  import opened PathBuilder
  import opened IssuerRules

  /** Non-self-issued CA certificates among the first `n` certificates of a chain. */
  ghost function SubordinatesBelow(env: Env, chain: seq<Der>, n: nat): nat
    requires n <= |chain|
  {
    if n == 0 then 0
    else
      SubordinatesBelow(env, chain, n - 1)
      + if env.parse(chain[n - 1]).Some? && SubordinateCa(env.parse(chain[n - 1]).value) then 1 else 0
  }

  lemma SubordinatesCount(c: Cert, count: nat)
    requires Applicable(c) && count < U32_MAX
    ensures NextCount(c, count) == if SubordinateCa(c) then count + 1 else count
  {
  }

  lemma {:induction false} SubordinatesBelowPrefix(env: Env, a: seq<Der>, b: seq<Der>, n: nat)
    requires n <= |a| <= |b| && a == b[..|a|]
    ensures SubordinatesBelow(env, a, n) == SubordinatesBelow(env, b, n) <= n
    decreases n
  {
    if n > 0 {
      SubordinatesBelowPrefix(env, a, b, n - 1);
    }
  }

  /** Link `i` of a chain: a certificate that is no anchor, issued by the next one. */
  ghost predicate SoundLink(env: Env, t: int, anchors: seq<Der>, chain: seq<Der>, i: nat)
    requires i + 1 < |chain|
  {
    && chain[i] !in anchors
    && env.parse(chain[i]).Some? && env.parse(chain[i + 1]).Some?
    && Applicable(env.parse(chain[i]).value)
    && Issued(env, env.parse(chain[i]).value, env.parse(chain[i + 1]).value, t,
              SubordinatesBelow(env, chain, i + 1), chain[i + 1] in anchors)
  }

  ghost predicate Current(env: Env, t: int, d: Der) {
    env.parse(d).Some? && env.parse(d).value.notBefore <= t && t <= env.parse(d).value.notAfter
  }

  /** A path that may be trusted: it ends at an approved anchor and nowhere before,
      repeats nothing, is at most eight long, is valid at the reference time, and
      each certificate is signed by the next under the issuer rules. */
  ghost predicate SoundPath(env: Env, t: int, anchors: seq<Der>, chain: seq<Der>) {
    && 0 < |chain| <= 8
    && Distinct(chain)
    && chain[|chain| - 1] in anchors
    && (forall i :: 0 <= i < |chain| ==> Current(env, t, chain[i]))
    && (forall i :: 0 <= i < |chain| - 1 ==> SoundLink(env, t, anchors, chain, i))
  }

  /** The same for the part of a path already behind the loop. */
  ghost predicate SoundSoFar(env: Env, t: int, anchors: seq<Der>, seen: seq<Der>) {
    && 0 < |seen| <= MAX_DEPTH + 1
    && Distinct(seen[..|seen| - 1])
    && (forall i :: 0 <= i < |seen| - 1 ==> SoundLink(env, t, anchors, seen, i) && Current(env, t, seen[i]))
  }

  lemma SoundLinkExtends(env: Env, t: int, anchors: seq<Der>, seen: seq<Der>, next: Der, i: nat)
    requires i + 1 < |seen| && SoundLink(env, t, anchors, seen, i)
    ensures SoundLink(env, t, anchors, seen + [next], i)
  {
    SubordinatesBelowPrefix(env, seen, seen + [next], i + 1);
  }

  /** A climb under way: sound behind, with the count of subordinate CAs it carries. */
  ghost predicate Ascending(env: Env, t: int, anchors: seq<Der>, visited: seq<Der>, current: Der, count: nat) {
    && |visited| <= MAX_DEPTH
    && SoundSoFar(env, t, anchors, visited + [current])
    && count == SubordinatesBelow(env, visited + [current], |visited|)
  }

  lemma AscentStarts(env: Env, t: int, anchors: seq<Der>, leaf: Der)
    ensures Ascending(env, t, anchors, [], leaf, 0)
  {
    var seen := [] + [leaf];
    assert seen == [leaf];
    assert |seen| == 1 && seen[..|seen| - 1] == [];
    assert SoundSoFar(env, t, anchors, seen);
  }

  lemma CountIsSubordinates(env: Env, visited: seq<Der>, current: Der, count: nat)
    requires |visited| <= MAX_DEPTH && env.parse(current).Some? && Applicable(env.parse(current).value)
    requires count == SubordinatesBelow(env, visited + [current], |visited|)
    ensures NextCount(env.parse(current).value, count) == SubordinatesBelow(env, visited + [current], |visited| + 1)
  {
    var seen := visited + [current];
    SubordinatesBelowPrefix(env, seen, seen, |visited|);
    SubordinatesCount(env.parse(current).value, count);
  }

  /** One step up, to an issuer that fits. */
  lemma AscentRises(env: Env, t: int, anchors: seq<Der>, visited: seq<Der>, current: Der, count: nat, issuer: Der)
    requires Ascending(env, t, anchors, visited, current, count) && Passable(env, t, anchors, visited, current)
    requires var c := env.parse(current).value; IssuerFits(env, c, issuer, t, NextCount(c, count), anchors)
    ensures Ascending(env, t, anchors, visited + [current], issuer, NextCount(env.parse(current).value, count))
  {
    var seen := visited + [current];
    ProfileIsApplicable(env.parse(current).value);
    CountIsSubordinates(env, visited, current, count);
    SubordinatesBelowPrefix(env, seen, seen + [issuer], |seen|);
    LinksRise(env, t, anchors, visited, current, issuer);
    assert (seen + [issuer])[..|seen|] == seen && seen[..|visited|] == visited;
  }

  lemma LinksRise(env: Env, t: int, anchors: seq<Der>, visited: seq<Der>, current: Der, issuer: Der)
    requires SoundSoFar(env, t, anchors, visited + [current]) && Passable(env, t, anchors, visited, current)
    requires IssuerFits(env, env.parse(current).value, issuer, t, SubordinatesBelow(env, visited + [current], |visited| + 1), anchors)
    ensures var longer := visited + [current] + [issuer];
            forall i :: 0 <= i < |longer| - 1 ==> SoundLink(env, t, anchors, longer, i) && Current(env, t, longer[i])
  {
    var seen := visited + [current];
    var longer := seen + [issuer];
    var below := SubordinatesBelow(env, seen, |seen|);
    ProfileIsApplicable(env.parse(current).value);
    LinkIsIssued(env, env.parse(current).value, env.parse(issuer).value, t, below, issuer in anchors);
    forall i | 0 <= i < |longer| - 1
      ensures SoundLink(env, t, anchors, longer, i) && Current(env, t, longer[i])
    {
      if i < |visited| {
        SoundLinkExtends(env, t, anchors, seen, issuer, i);
      } else {
        SubordinatesBelowPrefix(env, seen, longer, |seen|);
      }
    }
  }

  /** Arrival at an approved anchor. */
  lemma AscentEnds(env: Env, t: int, anchors: seq<Der>, visited: seq<Der>, current: Der, count: nat)
    requires Ascending(env, t, anchors, visited, current, count) && current in anchors && current !in visited
    requires |visited| < MAX_DEPTH && Current(env, t, current)
    ensures SoundPath(env, t, anchors, visited + [current])
  {
    var seen := visited + [current];
    assert seen[..|visited|] == visited;
    forall i | 0 <= i < |seen|
      ensures Current(env, t, seen[i])
    {
      if i < |visited| {
        assert SoundLink(env, t, anchors, seen, i);
      }
    }
  }
}
