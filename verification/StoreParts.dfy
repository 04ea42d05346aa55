/** Stores of evidence as sums of parts, one for each path that went into them. */
module StoreParts {
  import opened Basics
  import opened Certificates
  import opened EvidenceStore
  import opened ChainCollector

  // ----- merging

  function Merge(into: Material, from: Material): Material {
    Material(MergeUnique(into.certificates, from.certificates),
             MergeUnique(into.ocspResponses, from.ocspResponses),
             MergeUnique(into.crls, from.crls))
  }

  method MergeLoop(into: seq<Der>, from: seq<Der>) returns (merged: seq<Der>)
    ensures merged == MergeUnique(into, from)
  {
    merged := into;
    for i := 0 to |from|
      invariant merged == MergeUnique(into, from[..i])
    {
      assert from[..i + 1] == from[..i] + [from[i]];
      MergeUniqueSnoc(into, from[..i], from[i]);
      if from[i] !in merged {
        merged := merged + [from[i]];
      }
    }
    assert from[..|from|] == from;
  }

  method MergeMaterial(into: Material, from: Material) returns (merged: Material)
    ensures merged == Merge(into, from)
  {
    var certificates := MergeLoop(into.certificates, from.certificates);
    var ocspResponses := MergeLoop(into.ocspResponses, from.ocspResponses);
    var crls := MergeLoop(into.crls, from.crls);
    merged := Material(certificates, ocspResponses, crls);
  }

  lemma MergeHolds(into: Material, from: Material)
    ensures forall d :: d in Merge(into, from).certificates <==> d in into.certificates || d in from.certificates
    ensures forall e :: HasEvidence(Merge(into, from), e) <==> HasEvidence(into, e) || HasEvidence(from, e)
    ensures NoRepeats(into) ==> NoRepeats(Merge(into, from))
  {
    MergeUniqueHolds(into.certificates, from.certificates);
    MergeUniqueHolds(into.ocspResponses, from.ocspResponses);
    MergeUniqueHolds(into.crls, from.crls);
  }

  lemma MergeUniqueHolds(into: seq<Der>, from: seq<Der>)
    ensures forall d :: d in MergeUnique(into, from) <==> d in into || d in from
    ensures Distinct(into) ==> Distinct(MergeUnique(into, from))
  {
    MergeUniqueIsUnion(into, from);
    forall d
      ensures d in MergeUnique(into, from) <==> d in into || d in from
    {
      assert d in Elements(MergeUnique(into, from)) <==> d in Elements(into) + Elements(from);
    }
  }

  // ----- parts

  /** A path, what it left in a store, and how its status was judged. */
  datatype Part = Part(policy: NoncePolicy, now: int, path: seq<Der>, retained: seq<Der>)

  ghost predicate PartHeld(env: Env, p: Part, m: Material) {
    && (forall d :: d in p.retained ==> d in m.certificates)
    && Vouched(env, p.policy, p.now, p.path, m)
  }

  ghost predicate PartVouches(env: Env, p: Part, e: StatusEvidence) {
    VouchesSomewhere(env, p.policy, p.now, p.path, e)
  }

  /** The store holds every part whole, and nothing that is in none of them. */
  ghost predicate ExactFor(env: Env, parts: seq<Part>, m: Material) {
    && (forall i :: 0 <= i < |parts| ==> PartHeld(env, parts[i], m))
    && (forall d :: d in m.certificates ==> exists i :: 0 <= i < |parts| && d in parts[i].retained)
    && (forall e :: HasEvidence(m, e) ==> exists i :: 0 <= i < |parts| && PartVouches(env, parts[i], e))
    && NoRepeats(m)
  }

  lemma EmptyIsExact(env: Env)
    ensures ExactFor(env, [], EMPTY)
  {
    forall e
      ensures !HasEvidence(EMPTY, e)
    {
    }
  }

  lemma PartSurvives(env: Env, p: Part, m: Material, larger: Material)
    requires PartHeld(env, p, m)
    requires forall d :: d in m.certificates ==> d in larger.certificates
    requires forall e :: HasEvidence(m, e) ==> HasEvidence(larger, e)
    ensures PartHeld(env, p, larger)
  {
    StaysVouched(env, p.policy, p.now, p.path, m, larger);
  }

  /** Merging stores adds their parts. */
  lemma MergeIsExact(env: Env, a: seq<Part>, into: Material, b: seq<Part>, from: Material)
    requires ExactFor(env, a, into) && ExactFor(env, b, from)
    ensures ExactFor(env, a + b, Merge(into, from))
  {
    var parts, m := a + b, Merge(into, from);
    MergeHolds(into, from);
    forall i | 0 <= i < |parts|
      ensures PartHeld(env, parts[i], m)
    {
      if i < |a| {
        PartSurvives(env, a[i], into, m);
      } else {
        PartSurvives(env, b[i - |a|], from, m);
      }
    }
    forall d | d in m.certificates
      ensures exists i :: 0 <= i < |parts| && d in parts[i].retained
    {
      if d in into.certificates {
        var i :| 0 <= i < |a| && d in a[i].retained;
        assert parts[i] == a[i];
      } else {
        var i :| 0 <= i < |b| && d in b[i].retained;
        assert parts[|a| + i] == b[i];
      }
    }
    forall e | HasEvidence(m, e)
      ensures exists i :: 0 <= i < |parts| && PartVouches(env, parts[i], e)
    {
      if HasEvidence(into, e) {
        var i :| 0 <= i < |a| && PartVouches(env, a[i], e);
        assert parts[i] == a[i];
      } else {
        var i :| 0 <= i < |b| && PartVouches(env, b[i], e);
        assert parts[|a| + i] == b[i];
      }
    }
  }

  lemma SingleIsExact(env: Env, part: Part, m: Material)
    requires (forall d :: d in m.certificates <==> d in part.retained)
    requires Vouched(env, part.policy, part.now, part.path, m)
    requires forall e :: HasEvidence(m, e) ==> PartVouches(env, part, e)
    requires NoRepeats(m)
    ensures ExactFor(env, [part], m)
  {
    var parts := [part];
    assert parts[0] == part;
    forall d | d in m.certificates
      ensures exists i :: 0 <= i < |parts| && d in parts[i].retained
    {
      assert d in parts[0].retained;
    }
    forall e | HasEvidence(m, e)
      ensures exists i :: 0 <= i < |parts| && PartVouches(env, parts[i], e)
    {
      assert PartVouches(env, parts[0], e);
    }
  }

  /** One collected start is one part. */
  lemma CollectedIsExact(env: Env, start: ChainStart, now: int, paths: seq<seq<Der>>, m: Material, retained: seq<Der>)
    requires |paths| == 1 && Holds(env, [start], now, paths, m)
    requires Elements(retained) == Elements(Retained(paths[0], start.includeLeaf, start.includeAnchor))
    ensures ExactFor(env, [Part(start.policy, now, paths[0], retained)], m)
  {
    var starts, part := [start], Part(start.policy, now, paths[0], retained);
    assert paths[..0] == [] && RetainedBy(starts, paths) == Elements(retained);
    forall d
      ensures d in m.certificates <==> d in retained
    {
      assert d in Elements(m.certificates) <==> d in Elements(retained);
    }
    forall e | HasEvidence(m, e)
      ensures PartVouches(env, part, e)
    {
      var j :| 0 <= j < |paths| && VouchesSomewhere(env, starts[j].policy, now, paths[j], e);
    }
    SingleIsExact(env, part, m);
  }
}
