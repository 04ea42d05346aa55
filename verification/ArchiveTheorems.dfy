/** Soundness and completeness of archive coverage. */
module ArchiveTheorems {
  import opened Basics
  import opened Http
  import opened Certificates
  import opened PathBuilder
  import opened PathSoundness
  import opened EvidenceStore
  import opened ChainCollector
  import opened StoreParts
  import opened PathExact
  import opened PathTheorems
  import opened Archive

  // ----- when two reference times build the same path

  ghost predicate SameValidity(env: Env, d: Der, t1: int, t2: int) {
    env.parse(d).Some? ==> (TimeOk(env.parse(d).value, t1) <==> TimeOk(env.parse(d).value, t2))
  }

  /** The same for whatever `d`'s own issuer addresses serve. */
  ghost predicate SameValidityAbove(env: Env, d: Der, t1: int, t2: int) {
    env.parse(d).Some? && env.parse(d).value.extensions.Some? ==>
      forall u :: u in Bounded(env.parse(d).value.extensions.value.caIssuers) && FetchIssuer(env, u).Some? ==>
        SameValidity(env, FetchIssuer(env, u).value, t1, t2)
  }

  lemma {:induction false} SameLocal(env: Env, subject: Cert, t1: int, t2: int, count: nat, anchors: seq<Der>, list: seq<Der>)
    requires forall d :: d in list ==> SameValidity(env, d, t1, t2)
    ensures FirstLocal(env, subject, t1, count, anchors, list) == FirstLocal(env, subject, t2, count, anchors, list)
    decreases |list|
  {
    if list != [] {
      SameLocal(env, subject, t1, t2, count, anchors, list[1..]);
      assert SameValidity(env, list[0], t1, t2);
    }
  }

  lemma {:induction false} SameFetched(env: Env, subject: Cert, t1: int, t2: int, count: nat, anchors: seq<Der>, urls: seq<Uri>)
    requires forall u :: u in urls && FetchIssuer(env, u).Some? ==> SameValidity(env, FetchIssuer(env, u).value, t1, t2)
    ensures var r := FirstFetched(env, subject, t1, count, anchors, urls);
            && r == FirstFetched(env, subject, t2, count, anchors, urls)
            && (r.Some? ==> SameValidity(env, r.value, t1, t2))
    decreases |urls|
  {
    if urls != [] {
      SameFetched(env, subject, t1, t2, count, anchors, urls[1..]);
      assert urls[0] in urls;
    }
  }

  lemma SameIssuer(env: Env, d: Der, t1: int, t2: int, count: nat, anchors: seq<Der>, candidates: seq<Der>)
    requires env.parse(d).Some? && SameValidityAbove(env, d, t1, t2)
    requires forall x :: x in anchors + candidates ==> SameValidity(env, x, t1, t2)
    ensures var subject := env.parse(d).value;
            var r := IssuerOf(env, subject, t1, count, anchors, candidates);
            && r == IssuerOf(env, subject, t2, count, anchors, candidates)
            && (r.Some? ==> SameValidity(env, r.value, t1, t2))
  {
    var subject := env.parse(d).value;
    SameLocal(env, subject, t1, t2, count, anchors, anchors + candidates);
    FirstLocalFits(env, subject, t1, count, anchors, anchors + candidates);
    if subject.extensions.Some? {
      SameFetched(env, subject, t1, t2, count, anchors, Bounded(subject.extensions.value.caIssuers));
    }
  }

  lemma {:induction false} SameClimb(env: Env, t1: int, t2: int, anchors: seq<Der>, candidates: seq<Der>, visited: seq<Der>,
                                     current: Der, count: nat)
    requires SameValidity(env, current, t1, t2)
    requires forall d :: d in anchors + candidates ==> SameValidity(env, d, t1, t2)
    requires forall d :: d in Climb(env, t1, anchors, candidates, visited, current, count).chain ==> SameValidityAbove(env, d, t1, t2)
    ensures Climb(env, t1, anchors, candidates, visited, current, count) == Climb(env, t2, anchors, candidates, visited, current, count)
    decreases MAX_DEPTH - |visited|
  {
    var r := Climb(env, t1, anchors, candidates, visited, current, count);
    assert current == r.chain[0];
    if env.parse(current).Some? && TimeOk(env.parse(current).value, t1) && current !in visited && |visited| < MAX_DEPTH
       && current !in anchors && NonAnchorProfile(env.parse(current).value).Some? {
      var next := NextCount(env.parse(current).value, count);
      SameIssuer(env, current, t1, t2, next, anchors, candidates);
      var found := IssuerOf(env, env.parse(current).value, t1, next, anchors, candidates);
      if found.Some? {
        var grown := PushUnique(candidates, found.value);
        var rest := Climb(env, t1, anchors, grown, visited + [current], found.value, next);
        assert r.chain == [current] + rest.chain;
        assert forall d :: d in rest.chain ==> d in r.chain;
        SameClimb(env, t1, t2, anchors, grown, visited + [current], found.value, next);
      }
    }
  }

  /** Every certificate that building the inner token's path may look at is inside
      its validity window at both times, or outside at both. */
  ghost predicate WindowsAgree(env: Env, inner: Token, t2: int) {
    && (forall d :: d in [inner.signer] + inner.embedded ==> SameValidity(env, d, inner.generatedAt, t2))
    && (forall d :: d in TokenPath(env, inner).chain ==> SameValidityAbove(env, d, inner.generatedAt, t2))
  }

  lemma {:induction false} SelfIssuedAreEmbedded(env: Env, ders: seq<Der>)
    ensures forall d :: d in SelfIssued(env, ders) ==> d in ders
  {
    if ders != [] {
      SelfIssuedAreEmbedded(env, ders[1..]);
    }
  }

  lemma SameTokenPath(env: Env, inner: Token, outer: Token)
    requires inner.signer == outer.signer && inner.embedded == outer.embedded
    requires WindowsAgree(env, inner, outer.generatedAt)
    ensures TokenPath(env, inner) == TokenPath(env, outer)
  {
    var anchors, candidates := EmbeddedAnchors(env, inner), TokenCandidates(inner);
    if anchors != [] {
      SelfIssuedAreEmbedded(env, inner.embedded);
      MergeUniqueIsUnion([], [inner.signer] + inner.embedded);
      forall d | d in anchors + candidates
        ensures SameValidity(env, d, inner.generatedAt, outer.generatedAt)
      {
        if d in candidates {
          assert d in Elements(candidates);
        } else {
          assert d in [inner.signer] + inner.embedded;
        }
      }
      assert inner.signer in [inner.signer] + inner.embedded;
      SameClimb(env, inner.generatedAt, outer.generatedAt, anchors, candidates, [], inner.signer, 0);
    }
  }

  // ----- what one token's evidence holds

  /** A token's evidence is collected exactly when the embedded path is accepted and
      every status query along it succeeds; its certificates are then that path. */
  lemma TokenMaterialIsItsPath(env: Env, token: Token, now: int)
    ensures var p := TokenPath(env, token);
            var r := TokenMaterial(env, token, now);
            && (r.Ok? <==> p.failure.None? && LinksHaveStatus(env, AllowMissingEcho, now, p.chain))
            && (r.Ok? ==> Elements(r.value.certificates) == Elements(p.chain)
                          && LinksAreEvidenced(env, AllowMissingEcho, now, p.chain, r.value)
                          && SoundPath(env, token.generatedAt, EmbeddedAnchors(env, token), p.chain))
  {
    var p := TokenPath(env, token);
    if EmbeddedAnchors(env, token) != [] {
      var starts := [TokenStart(env, token)];
      assert Leaves(starts) == [token.signer];
      var ps := Paths(env, starts, TokenCandidates(token));
      assert starts[1..] == [] && ps == [p];
      CollectIsAllOrNothing(env, starts, token.embedded, now);
      RetainedWhole(p.chain);
      assert Contributed(starts, ps) == Elements(Retained(p.chain, true, true)) + Contributed(starts[1..], ps[1..]);
      assert Accepted(env, starts[0], now, ps[0]) <==> TokenMaterial(env, token, now).Ok?;
    }
  }

  /** Completeness of coverage.  A store that merged the evidence of an inner token
      always covers an outer token with the same signer and embedded certificates
      when the validity windows agree; only its status queries can still refuse it. */
  lemma UnchangedAuthorityIsCovered(env: Env, inner: Token, outer: Token, collectedAt: int, store: Material, now: int)
    requires inner.signer == outer.signer && inner.embedded == outer.embedded
    requires WindowsAgree(env, inner, outer.generatedAt)
    requires TokenMaterial(env, inner, collectedAt).Ok?
    requires Elements(TokenMaterial(env, inner, collectedAt).value.certificates) <= Elements(store.certificates)
    ensures TokenPath(env, outer).failure.None? && Covered(TokenPath(env, outer).chain, store)
    ensures Gate(env, outer, store, now) <==> LinksHaveStatus(env, AllowMissingEcho, now, TokenPath(env, inner).chain)
  {
    SameTokenPath(env, inner, outer);
    TokenMaterialIsItsPath(env, inner, collectedAt);
    TokenMaterialIsItsPath(env, outer, now);
    var chain := TokenPath(env, inner).chain;
    forall d | d in chain
      ensures d in store.certificates
    {
      assert d in Elements(chain);
      assert d in Elements(store.certificates);
    }
  }

  // ----- merging stores

  ghost predicate Within(small: Material, large: Material) {
    && Elements(small.certificates) <= Elements(large.certificates)
    && Elements(small.ocspResponses) <= Elements(large.ocspResponses)
    && Elements(small.crls) <= Elements(large.crls)
  }

  /** Merging stores is a prefix-preserving, idempotent union without repetition. */
  lemma MergeIsUnion(into: Material, from: Material)
    ensures var m := Merge(into, from);
            && Grows(into, m) && Within(from, m) && Within(into, m)
            && Elements(m.certificates) == Elements(into.certificates) + Elements(from.certificates)
            && Elements(m.ocspResponses) == Elements(into.ocspResponses) + Elements(from.ocspResponses)
            && Elements(m.crls) == Elements(into.crls) + Elements(from.crls)
            && Merge(m, from) == m
            && (NoRepeats(into) ==> NoRepeats(m))
  {
    MergeUniqueIsUnion(into.certificates, from.certificates);
    MergeUniqueIsUnion(into.ocspResponses, from.ocspResponses);
    MergeUniqueIsUnion(into.crls, from.crls);
    MergeUniqueIdempotent(into.certificates, from.certificates);
    MergeUniqueIdempotent(into.ocspResponses, from.ocspResponses);
    MergeUniqueIdempotent(into.crls, from.crls);
  }

  lemma WithinCarriesEvidence(env: Env, policy: NoncePolicy, now: int, chain: seq<Der>, small: Material, large: Material)
    requires LinksAreEvidenced(env, policy, now, chain, small) && Within(small, large)
    ensures LinksAreEvidenced(env, policy, now, chain, large)
  {
    forall i | 0 <= i < |chain| - 1
      ensures var s := LinkStatus(env, policy, now, chain[i], chain[i + 1]); s.Ok? && HasEvidence(large, s.value)
    {
      var s := LinkStatus(env, policy, now, chain[i], chain[i + 1]).value;
      match s
      case Ocsp(der) => assert der in Elements(small.ocspResponses) && der in Elements(large.ocspResponses);
      case Crl(der) => assert der in Elements(small.crls) && der in Elements(large.crls);
    }
  }

  lemma {:induction false} KeptMaterialHolds(evidence: nat -> Option<Material>, n: nat)
    ensures NoRepeats(KeptMaterial(evidence, n))
    ensures forall i :: 0 <= i < n && evidence(i).Some? ==> Within(evidence(i).value, KeptMaterial(evidence, n))
    decreases n
  {
    if n > 0 {
      KeptMaterialHolds(evidence, n - 1);
      if evidence(n - 1).Some? {
        MergeIsUnion(KeptMaterial(evidence, n - 1), evidence(n - 1).value);
      }
    }
  }

  lemma {:induction false} KeptTokensAreAnswers(keepMaterial: bool, answers: seq<Option<Token>>, evidence: nat -> Option<Material>,
                                                n: nat, token: Token)
    requires n <= |answers|
    ensures token in KeptTokens(keepMaterial, answers, evidence, n) <==>
            exists i :: 0 <= i < n && KeptAnswer(keepMaterial, answers, evidence, i) && answers[i].value == token
    decreases n
  {
    if n > 0 {
      KeptTokensAreAnswers(keepMaterial, answers, evidence, n - 1, token);
    }
  }

  lemma {:induction false} FirstTrueIsFirst(verdicts: seq<bool>, i: nat)
    requires i <= |verdicts|
    ensures var r := FirstTrue(verdicts, i);
            && (r.None? <==> forall k :: i <= k < |verdicts| ==> !verdicts[k])
            && (r.Some? ==> i <= r.value < |verdicts| && verdicts[r.value] && forall j :: i <= j < r.value ==> !verdicts[j])
    decreases |verdicts| - i
  {
    if i < |verdicts| && !verdicts[i] {
      FirstTrueIsFirst(verdicts, i + 1);
    }
  }

  // ----- the document

  /** The token's whole verified path, byte for byte, with evidence for every
      certificate on it below its anchor. */
  ghost predicate Frozen(env: Env, token: Token, now: int, store: Material) {
    var p := TokenPath(env, token);
    && p.failure.None?
    && SoundPath(env, token.generatedAt, EmbeddedAnchors(env, token), p.chain)
    && Covered(p.chain, store)
    && LinksAreEvidenced(env, AllowMissingEcho, now, p.chain, store)
  }

  lemma KeptTokensAreFrozen(env: Env, answers: seq<Option<Token>>, clock: nat -> int, store: Material, i: nat)
    requires i < |answers| && answers[i].Some? && TokenMaterial(env, answers[i].value, clock(i)).Ok?
    requires Within(TokenMaterial(env, answers[i].value, clock(i)).value, store)
    ensures Frozen(env, answers[i].value, clock(i), store)
  {
    var token, now := answers[i].value, clock(i);
    TokenMaterialIsItsPath(env, token, now);
    var chain := TokenPath(env, token).chain;
    WithinCarriesEvidence(env, AllowMissingEcho, now, chain, TokenMaterial(env, token, now).value, store);
    forall d | d in chain
      ensures d in store.certificates
    {
      assert d in Elements(chain) && d in Elements(store.certificates);
    }
  }

  lemma StoreHoldsInner(env: Env, inner: seq<Option<Token>>, clock: nat -> int, own: Material, i: nat)
    requires i < |inner| && inner[i].Some? && TokenMaterial(env, inner[i].value, clock(i)).Ok?
    ensures Within(TokenMaterial(env, inner[i].value, clock(i)).value,
                   Merge(KeptMaterial(Evidence(env, inner, clock), |inner|), own))
  {
    var evidence := Evidence(env, inner, clock);
    KeptMaterialHolds(evidence, |inner|);
    assert evidence(i) == Some(TokenMaterial(env, inner[i].value, clock(i)).value);
    MergeIsUnion(KeptMaterial(evidence, |inner|), own);
  }

  /** Long-term output: at least one timestamp, and the path and evidence of every
      timestamp and of the signer are in the embedded store, without repetition. */
  lemma LongTermOutput(env: Env, request: DocumentRequest, inner: seq<Option<Token>>, outer: seq<Option<Token>>,
                       signer: Der, roots: seq<Der>, clock: nat -> int)
    requires RequiresLongTermMaterial(request) && Assembled(env, request, inner, outer, signer, roots, clock).Ok?
    ensures var doc := Assembled(env, request, inner, outer, signer, roots, clock).value;
            var start := SignerStart(signer, roots, doc.tokens, clock(|inner|));
            var own := PathOf(env, start, [signer]);
            && doc.tokens != [] && NoRepeats(doc.material)
            && (forall token :: token in doc.tokens ==>
                  exists i :: 0 <= i < |inner| && inner[i] == Some(token) && Frozen(env, token, clock(i), doc.material))
            && SoundPath(env, start.referenceTime, roots, own.chain) && own.chain[0] == signer
            && LinksAreEvidenced(env, RequireEcho, clock(|inner|), own.chain, doc.material)
            && Elements(Retained(own.chain, false, false)) <= Elements(doc.material.certificates)
  {
    var doc := Assembled(env, request, inner, outer, signer, roots, clock).value;
    var now := clock(|inner|);
    var start := SignerStart(signer, roots, doc.tokens, now);
    var starts := [start];
    var evidence := Evidence(env, inner, clock);
    var kept := KeptMaterial(evidence, |inner|);
    var own := Collect(env, starts, [], now).value;
    MergeIsUnion(kept, own);
    KeptMaterialHolds(evidence, |inner|);
    forall token | token in doc.tokens
      ensures exists i :: 0 <= i < |inner| && inner[i] == Some(token) && Frozen(env, token, clock(i), doc.material)
    {
      KeptTokensAreAnswers(true, inner, evidence, |inner|, token);
      var i :| 0 <= i < |inner| && KeptAnswer(true, inner, evidence, i) && inner[i].value == token;
      StoreHoldsInner(env, inner, clock, own, i);
      KeptTokensAreFrozen(env, inner, clock, doc.material, i);
      assert inner[i] == Some(token);
    }
    SignerPathIsStored(env, start, now);
    WithinCarriesEvidence(env, RequireEcho, now, PathOf(env, start, [signer]).chain, own, doc.material);
  }

  lemma SignerPathIsStored(env: Env, start: ChainStart, now: int)
    requires Collect(env, [start], [], now).Ok?
    ensures var own := PathOf(env, start, [start.leaf]);
            var store := Collect(env, [start], [], now).value;
            && SoundPath(env, start.referenceTime, start.anchors, own.chain) && own.chain[0] == start.leaf
            && LinksAreEvidenced(env, start.policy, now, own.chain, store)
            && Elements(store.certificates) == Elements(Retained(own.chain, start.includeLeaf, start.includeAnchor))
  {
    var starts := [start];
    var candidates := MergeUnique([], Leaves(starts) + []);
    assert Leaves(starts) + [] == [start.leaf];
    MergeUniqueSnoc([], [], start.leaf);
    assert [] + [start.leaf] == [start.leaf] && candidates == [start.leaf];
    CollectIsAllOrNothing(env, starts, [], now);
    var ps := Paths(env, starts, candidates);
    assert starts[1..] == [] && ps == [PathOf(env, start, candidates)];
    assert Contributed(starts, ps) == Elements(Retained(ps[0].chain, start.includeLeaf, start.includeAnchor)) + Contributed(starts[1..], ps[1..]);
  }

  lemma ChosenOuter(env: Env, request: DocumentRequest, inner: seq<Option<Token>>, outer: seq<Option<Token>>,
                    signer: Der, roots: seq<Der>, clock: nat -> int) returns (k: nat)
    requires request.archive && Assembled(env, request, inner, outer, signer, roots, clock).Ok?
    ensures var doc := Assembled(env, request, inner, outer, signer, roots, clock).value;
            var gates := Gates(env, outer, doc.material, clock, OuterBase(inner));
            && k < |outer| && outer[k] == doc.outer && gates[k] && (forall j :: 0 <= j < k ==> !gates[j])
            && doc.reportedTokens == |doc.tokens| + 1
  {
    var gates := Gates(env, outer, Assembled(env, request, inner, outer, signer, roots, clock).value.material, clock, OuterBase(inner));
    FirstTrueIsFirst(gates, 0);
    k := FirstTrue(gates, 0).value;
  }

  lemma PassedGate(env: Env, outer: seq<Option<Token>>, store: Material, clock: nat -> int, base: nat, k: nat)
    requires k < |outer| && Gates(env, outer, store, clock, base)[k]
    ensures outer[k].Some?
    ensures var p := TokenPath(env, outer[k].value);
            && p.failure.None? && Covered(p.chain, store)
            && SoundPath(env, outer[k].value.generatedAt, EmbeddedAnchors(env, outer[k].value), p.chain)
  {
    VerdictAt(env, outer, store, clock, base, |outer|, k);
    TokenMaterialIsItsPath(env, outer[k].value, clock(base + k));
  }

  /** Archive output: the outer token is the first whose gate passes, and its whole
      verified path is byte for byte in the store it covers. */
  lemma ArchiveOutput(env: Env, request: DocumentRequest, inner: seq<Option<Token>>, outer: seq<Option<Token>>,
                      signer: Der, roots: seq<Der>, clock: nat -> int)
    requires request.archive && Assembled(env, request, inner, outer, signer, roots, clock).Ok?
    ensures var doc := Assembled(env, request, inner, outer, signer, roots, clock).value;
            && doc.outer.Some? && doc.reportedTokens == |doc.tokens| + 1
            && TokenPath(env, doc.outer.value).failure.None?
            && Covered(TokenPath(env, doc.outer.value).chain, doc.material)
            && SoundPath(env, doc.outer.value.generatedAt, EmbeddedAnchors(env, doc.outer.value),
                         TokenPath(env, doc.outer.value).chain)
            && var gates := Gates(env, outer, doc.material, clock, OuterBase(inner));
            exists k :: 0 <= k < |outer| && outer[k] == doc.outer && gates[k] && forall j :: 0 <= j < k ==> !gates[j]
  {
    var k := ChosenOuter(env, request, inner, outer, signer, roots, clock);
    var doc := Assembled(env, request, inner, outer, signer, roots, clock).value;
    PassedGate(env, outer, doc.material, clock, OuterBase(inner), k);
  }

  /** Asking for the archive changes nothing before the outer token. */
  lemma ArchiveOnlyAddsOuter(env: Env, inner: seq<Option<Token>>, outer: seq<Option<Token>>,
                             signer: Der, roots: seq<Der>, clock: nat -> int)
    requires Assembled(env, DocumentRequest(true, false), inner, outer, signer, roots, clock).Ok?
    ensures var doc := Assembled(env, DocumentRequest(true, false), inner, outer, signer, roots, clock).value;
            var archived := Assembled(env, DocumentRequest(true, true), inner, outer, signer, roots, clock);
            var first := FirstTrue(Gates(env, outer, doc.material, clock, OuterBase(inner)), 0);
            && doc.outer.None?
            && (archived.Ok? <==> first.Some?)
            && (archived.Ok? ==> archived.value.tokens == doc.tokens && archived.value.material == doc.material)
  {
  }

  /** The long-term store: what the kept answers left, then the signer's evidence. */
  lemma PreparedStore(env: Env, inner: seq<Option<Token>>, signer: Der, roots: seq<Der>, clock: nat -> int) returns (own: Material)
    requires Prepared(env, true, inner, signer, roots, clock).Ok?
    ensures Prepared(env, true, inner, signer, roots, clock).value.material
            == Merge(KeptMaterial(Evidence(env, inner, clock), |inner|), own)
  {
    var tokens := Prepared(env, true, inner, signer, roots, clock).value.tokens;
    own := Collect(env, [SignerStart(signer, roots, tokens, clock(|inner|))], [], clock(|inner|)).value;
  }

  lemma PreparedHoldsInner(env: Env, inner: seq<Option<Token>>, signer: Der, roots: seq<Der>, clock: nat -> int, i: nat)
    requires Prepared(env, true, inner, signer, roots, clock).Ok?
    requires i < |inner| && inner[i].Some? && TokenMaterial(env, inner[i].value, clock(i)).Ok?
    ensures Within(TokenMaterial(env, inner[i].value, clock(i)).value, Prepared(env, true, inner, signer, roots, clock).value.material)
  {
    var own := PreparedStore(env, inner, signer, roots, clock);
    StoreHoldsInner(env, inner, clock, own, i);
  }

  /** The store an outer token has to be covered by. */
  lemma StoreToCover(env: Env, inner: seq<Option<Token>>, outer: seq<Option<Token>>, signer: Der, roots: seq<Der>,
                     clock: nat -> int, i: nat, kept: Token) returns (store: Material)
    ensures Assembled(env, DocumentRequest(true, false), inner, outer, signer, roots, clock).Ok? ==>
              && (KeptAt(env, inner, clock, i, kept) ==> Holding(env, kept, clock(i), store))
              && (FirstTrue(Gates(env, outer, store, clock, OuterBase(inner)), 0).Some? ==>
                    Assembled(env, DocumentRequest(true, true), inner, outer, signer, roots, clock).Ok?)
  {
    store := EMPTY;
    if Assembled(env, DocumentRequest(true, false), inner, outer, signer, roots, clock).Ok? {
      store := Prepared(env, true, inner, signer, roots, clock).value.material;
      if KeptAt(env, inner, clock, i, kept) {
        PreparedHoldsInner(env, inner, signer, roots, clock, i);
      }
    }
  }

  /** The inner answer `kept` had its evidence collected. */
  ghost predicate KeptAt(env: Env, inner: seq<Option<Token>>, clock: nat -> int, i: nat, kept: Token) {
    i < |inner| && inner[i] == Some(kept) && TokenMaterial(env, kept, clock(i)).Ok?
  }

  ghost predicate Holding(env: Env, kept: Token, collectedAt: int, store: Material) {
    TokenMaterial(env, kept, collectedAt).Ok? && Within(TokenMaterial(env, kept, collectedAt).value, store)
  }

  /** An authority that signs the outer query as it signed a kept inner answer, with
      windows that agree and status services that still answer. */
  ghost predicate Unchanged(env: Env, kept: Token, later: Token, now: int) {
    && kept.signer == later.signer && kept.embedded == later.embedded
    && WindowsAgree(env, kept, later.generatedAt)
    && LinksHaveStatus(env, AllowMissingEcho, now, TokenPath(env, kept).chain)
  }

  /** Archive completeness: once the long-term part of the document is there, an
      authority unchanged since one of its kept inner answers makes the archive
      timestamp succeed. */
  lemma UnchangedAuthorityArchives(env: Env, inner: seq<Option<Token>>, outer: seq<Option<Token>>,
                                   signer: Der, roots: seq<Der>, clock: nat -> int, i: nat, k: nat, kept: Token, later: Token)
    requires Assembled(env, DocumentRequest(true, false), inner, outer, signer, roots, clock).Ok?
    requires KeptAt(env, inner, clock, i, kept)
    requires k < |outer| && outer[k] == Some(later) && Unchanged(env, kept, later, clock(OuterBase(inner) + k))
    ensures Assembled(env, DocumentRequest(true, true), inner, outer, signer, roots, clock).Ok?
  {
    var store := StoreToCover(env, inner, outer, signer, roots, clock, i, kept);
    PassesGate(env, outer, store, clock, OuterBase(inner), k, kept, later, clock(i));
  }

  lemma PassesGate(env: Env, outer: seq<Option<Token>>, store: Material, clock: nat -> int, base: nat, k: nat,
                   kept: Token, later: Token, collectedAt: int)
    ensures k < |outer| && outer[k] == Some(later) && Unchanged(env, kept, later, clock(base + k))
            && Holding(env, kept, collectedAt, store) ==>
              FirstTrue(Gates(env, outer, store, clock, base), 0).Some?
  {
    if k < |outer| && outer[k] == Some(later) && Unchanged(env, kept, later, clock(base + k)) && Holding(env, kept, collectedAt, store) {
      UnchangedAuthorityIsCovered(env, kept, later, collectedAt, store, clock(base + k));
      VerdictAt(env, outer, store, clock, base, |outer|, k);
      FirstTrueIsFirst(Gates(env, outer, store, clock, base), 0);
    }
  }

  // ----- assembly, spelled out

  ghost predicate SelfIssuedDer(env: Env, d: Der) {
    env.parse(d).Some? && env.parse(d).value.issuer == env.parse(d).value.subject
  }

  lemma {:induction false} SelfIssuedExactly(env: Env, ders: seq<Der>, d: Der)
    ensures d in SelfIssued(env, ders) <==> d in ders && SelfIssuedDer(env, d)
  {
    if ders != [] {
      SelfIssuedExactly(env, ders[1..], d);
      assert ders == [ders[0]] + ders[1..];
    }
  }

  /** The anchors a token carries: its self-issued certificates if it has any, and
      otherwise all it embeds. */
  lemma AnchorsExactly(env: Env, token: Token, d: Der)
    ensures d in EmbeddedAnchors(env, token) <==>
            && d in token.embedded
            && ((exists own :: own in token.embedded && SelfIssuedDer(env, own)) ==> SelfIssuedDer(env, d))
  {
    SelfIssuedExactly(env, token.embedded, d);
    var own := SelfIssued(env, token.embedded);
    if own != [] {
      SelfIssuedExactly(env, token.embedded, own[0]);
    }
    forall x | x in token.embedded && SelfIssuedDer(env, x)
      ensures x in own
    {
      SelfIssuedExactly(env, token.embedded, x);
    }
  }

  /** Its path is the greedy climb among its own certificates at its own time. */
  lemma TokenPathExactly(env: Env, token: Token)
    ensures GreedyClimb(env, token.generatedAt, EmbeddedAnchors(env, token), MergeUnique([], [token.signer] + token.embedded),
                        token.signer, TokenPath(env, token))
  {
    PathIsGreedy(env, token.generatedAt, EmbeddedAnchors(env, token), TokenCandidates(token), token.signer);
  }

  /** The token's path is accepted and every status query along it succeeds at `now`. */
  ghost predicate Provable(env: Env, token: Token, now: int) {
    && TokenPath(env, token).failure.None?
    && LinksHaveStatus(env, AllowMissingEcho, now, TokenPath(env, token).chain)
  }

  lemma GateExactly(env: Env, token: Token, store: Material, now: int)
    ensures Gate(env, token, store, now) <==>
            Provable(env, token, now) && forall d :: d in TokenPath(env, token).chain ==> d in store.certificates
  {
    TokenMaterialIsItsPath(env, token, now);
  }

  /** Answer `i` is kept: it is there and, if evidence is wanted, can be proved. */
  ghost predicate Keepable(env: Env, keep: bool, answers: seq<Option<Token>>, clock: nat -> int, i: nat)
    requires i < |answers|
  {
    answers[i].Some? && (keep ==> Provable(env, answers[i].value, clock(i)))
  }

  ghost predicate NoneKeepable(env: Env, keep: bool, answers: seq<Option<Token>>, clock: nat -> int) {
    forall i :: 0 <= i < |answers| ==> !Keepable(env, keep, answers, clock, i)
  }

  lemma {:induction false} KeptFrom(keep: bool, answers: seq<Option<Token>>, evidence: nat -> Option<Material>, n: nat) returns (from: seq<nat>)
    requires n <= |answers|
    ensures KeptInOrder(answers, KeptTokens(keep, answers, evidence, n), from)
    ensures forall i :: i in from <==> 0 <= i < n && KeptAnswer(keep, answers, evidence, i)
    decreases n
  {
    from := [];
    if n > 0 {
      from := KeptFrom(keep, answers, evidence, n - 1);
      if KeptAnswer(keep, answers, evidence, n - 1) {
        assert forall j :: 0 <= j < |from| ==> from[j] in from;
        KeepOne(answers, KeptTokens(keep, answers, evidence, n - 1), from, n - 1);
        from := from + [n - 1];
      }
    }
  }

  lemma KeptMeansKeepable(env: Env, keep: bool, answers: seq<Option<Token>>, clock: nat -> int, i: nat)
    requires i < |answers|
    ensures KeptAnswer(keep, answers, Evidence(env, answers, clock), i) <==> Keepable(env, keep, answers, clock, i)
  {
    if answers[i].Some? {
      TokenMaterialIsItsPath(env, answers[i].value, clock(i));
    }
  }

  /** The collected tokens are exactly the keepable answers, in order and none lost;
      collecting fails exactly when a timestamp was wanted and none is keepable. */
  lemma KeptExactly(env: Env, keep: bool, answers: seq<Option<Token>>, clock: nat -> int)
    ensures var r := CollectedTimestamps(env, keep, answers, clock);
            && (r.Err? <==> NoneKeepable(env, keep, answers, clock) && (answers != [] || keep))
            && (r.Err? ==> r.error == Timestamp)
            && (r.Ok? ==> exists from ::
                  && KeptInOrder(answers, r.value.tokens, from)
                  && forall i :: i in from <==> 0 <= i < |answers| && Keepable(env, keep, answers, clock, i))
  {
    var from := KeptFrom(keep, answers, Evidence(env, answers, clock), |answers|);
    var tokens := KeptTokens(keep, answers, Evidence(env, answers, clock), |answers|);
    forall i | 0 <= i < |answers|
      ensures KeptAnswer(keep, answers, Evidence(env, answers, clock), i) <==> Keepable(env, keep, answers, clock, i)
    {
      KeptMeansKeepable(env, keep, answers, clock, i);
    }
    assert tokens == [] <==> from == [];
    assert from != [] ==> from[0] in from;
    forall i | 0 <= i < |answers| && Keepable(env, keep, answers, clock, i)
      ensures from != []
    {
      assert i in from;
    }
  }

  /** The signer's part of assembly: at the earliest kept time, from the roots, with
      our nonce echoed. */
  ghost predicate SignerProvable(env: Env, signer: Der, roots: seq<Der>, earliest: int, now: int, p: Climbed) {
    && GreedyClimb(env, earliest, roots, [signer], signer, p)
    && p.failure.None? && LinksHaveStatus(env, RequireEcho, now, p.chain)
  }

  lemma LoneCandidates(start: ChainStart)
    ensures MergeUnique([], Leaves([start]) + []) == [start.leaf]
  {
    assert Leaves([start]) + [] == [start.leaf];
    MergeUniqueSnoc([], [], start.leaf);
    assert [] + [start.leaf] == [start.leaf];
  }

  lemma LoneStart(env: Env, start: ChainStart, now: int)
    ensures Collect(env, [start], [], now).Ok? <==> Accepted(env, start, now, PathOf(env, start, [start.leaf]))
  {
    var starts := [start];
    LoneCandidates(start);
    CollectFromSucceedsWhen(env, starts, now, [start.leaf], EMPTY);
    var ps := Paths(env, starts, [start.leaf]);
    assert ps[0] == PathOf(env, start, [start.leaf]);
  }

  lemma SignerCollected(env: Env, signer: Der, roots: seq<Der>, tokens: seq<Token>, now: int)
    ensures var start := SignerStart(signer, roots, tokens, now);
            Collect(env, [start], [], now).Ok?
            <==> SignerProvable(env, signer, roots, Earliest(tokens, now), now, PathOf(env, start, [signer]))
  {
    LoneStart(env, SignerStart(signer, roots, tokens, now), now);
    PathIsGreedy(env, Earliest(tokens, now), roots, [signer], signer);
  }

  /** The tokens of a document are exactly the keepable answers, in order and none
      lost, and without long-term material its store is empty. */
  lemma DocumentTokens(env: Env, request: DocumentRequest, inner: seq<Option<Token>>, outer: seq<Option<Token>>,
                       signer: Der, roots: seq<Der>, clock: nat -> int)
    requires Assembled(env, request, inner, outer, signer, roots, clock).Ok?
    ensures var keep := request.longTerm || request.archive;
            var doc := Assembled(env, request, inner, outer, signer, roots, clock).value;
            && (!keep ==> doc.material == EMPTY)
            && exists from ::
                 && KeptInOrder(inner, doc.tokens, from)
                 && forall i :: i in from <==> 0 <= i < |inner| && Keepable(env, keep, inner, clock, i)
  {
    KeptExactly(env, request.longTerm || request.archive, inner, clock);
  }

  /** Outer answer `j` is there, provable, and wholly in the store. */
  ghost predicate Passes(env: Env, outer: seq<Option<Token>>, store: Material, clock: nat -> int, base: nat, j: nat)
    requires j < |outer|
  {
    && outer[j].Some? && Provable(env, outer[j].value, clock(base + j))
    && forall d :: d in TokenPath(env, outer[j].value).chain ==> d in store.certificates
  }

  ghost predicate FirstPasses(env: Env, outer: seq<Option<Token>>, store: Material, clock: nat -> int, base: nat, k: nat)
    requires k < |outer|
  {
    Passes(env, outer, store, clock, base, k) && forall j: nat :: j < k ==> !Passes(env, outer, store, clock, base, j)
  }

  lemma PassesMeans(env: Env, outer: seq<Option<Token>>, store: Material, clock: nat -> int, base: nat, j: nat)
    requires j < |outer|
    ensures Gates(env, outer, store, clock, base)[j] <==> Passes(env, outer, store, clock, base, j)
  {
    VerdictAt(env, outer, store, clock, base, |outer|, j);
    if outer[j].Some? {
      GateExactly(env, outer[j].value, store, clock(base + j));
    }
  }

  ghost predicate NonePasses(env: Env, outer: seq<Option<Token>>, store: Material, clock: nat -> int, base: nat) {
    forall j: nat :: j < |outer| ==> !Passes(env, outer, store, clock, base, j)
  }

  lemma OuterExactly(env: Env, outer: seq<Option<Token>>, store: Material, clock: nat -> int, base: nat)
    ensures var first := FirstTrue(Gates(env, outer, store, clock, base), 0);
            if first.Some? then first.value < |outer| && FirstPasses(env, outer, store, clock, base, first.value)
            else NonePasses(env, outer, store, clock, base)
  {
    FirstTrueIsFirst(Gates(env, outer, store, clock, base), 0);
    forall j: nat | j < |outer|
      ensures Gates(env, outer, store, clock, base)[j] <==> Passes(env, outer, store, clock, base, j)
    {
      PassesMeans(env, outer, store, clock, base, j);
    }
  }

  /** Whether a document gets as far as the outer token, and what stops it. */
  lemma PreparedExactly(env: Env, keep: bool, inner: seq<Option<Token>>, signer: Der, roots: seq<Der>, clock: nat -> int)
    ensures var r := Prepared(env, keep, inner, signer, roots, clock);
            && (r == Err(Timestamp) <==> NoneKeepable(env, keep, inner, clock) && (inner != [] || keep))
            && (r.Err? && r.error != Timestamp ==>
                  && keep && r.error.SignerMaterial?
                  && var tokens := CollectedTimestamps(env, keep, inner, clock).value.tokens;
                     var now := clock(|inner|);
                     !SignerProvable(env, signer, roots, Earliest(tokens, now), now,
                                     PathOf(env, SignerStart(signer, roots, tokens, now), [signer])))
            && (r.Ok? && keep ==>
                  var now := clock(|inner|);
                  SignerProvable(env, signer, roots, Earliest(r.value.tokens, now), now,
                                 PathOf(env, SignerStart(signer, roots, r.value.tokens, now), [signer])))
  {
    KeptExactly(env, keep, inner, clock);
    var stamps := CollectedTimestamps(env, keep, inner, clock);
    if stamps.Ok? {
      SignerCollected(env, signer, roots, stamps.value.tokens, clock(|inner|));
    }
  }

  /** Finishing: the document as it stands, or with the first outer answer that passes,
      and a failure exactly when none does. */
  lemma FinishExactly(env: Env, archive: bool, ready: Timestamps, outer: seq<Option<Token>>, clock: nat -> int, base: nat)
    ensures var r := Finish(env, archive, ready, outer, clock, base);
            if !archive then r == Ok(Document(ready.tokens, ready.material, None, |ready.tokens|))
            else if r.Ok? then
              exists k: nat :: k < |outer| && FirstPasses(env, outer, ready.material, clock, base, k)
                               && r.value == Document(ready.tokens, ready.material, outer[k], |ready.tokens| + 1)
            else r.error == Timestamp && NonePasses(env, outer, ready.material, clock, base)
  {
    OuterExactly(env, outer, ready.material, clock, base);
  }

  /** A document is what was ready, finished; the evidence of outer answers is judged
      after that of the inner ones and the signer's. */
  lemma AssembledExactly(env: Env, request: DocumentRequest, inner: seq<Option<Token>>, outer: seq<Option<Token>>,
                         signer: Der, roots: seq<Der>, clock: nat -> int)
    ensures var ready := Prepared(env, request.longTerm || request.archive, inner, signer, roots, clock);
            Assembled(env, request, inner, outer, signer, roots, clock)
            == if ready.Err? then Err(ready.error) else Finish(env, request.archive, ready.value, outer, clock, |inner| + 1)
  {
  }
}
