/** The evidence a long-term signature embeds, and the collection a walk gathers it in. */
module EvidenceStore {
  import opened Basics
  import opened Certificates

  datatype Material = Material(certificates: seq<Der>, ocspResponses: seq<Der>, crls: seq<Der>)

  const EMPTY: Material := Material([], [], [])

  class Collection {
    var material: Material
    var candidates: seq<Der>

    constructor ()
      ensures material == EMPTY && candidates == []
    {
      material, candidates := EMPTY, [];
    }

    method PushCandidate(der: Der)
      modifies this`candidates
      ensures candidates == PushUnique(old(candidates), der)
    {
      if der !in candidates {
        candidates := candidates + [der];
      }
    }

    method PushCertificate(der: Der)
      modifies this`material
      ensures material == old(material).(certificates := PushUnique(old(material).certificates, der))
    {
      if der !in material.certificates {
        material := material.(certificates := material.certificates + [der]);
      }
    }

    method PushStatus(evidence: StatusEvidence)
      modifies this`material
      ensures material == AddStatus(old(material), evidence)
    {
      match evidence
      case Ocsp(der) =>
        if der !in material.ocspResponses {
          material := material.(ocspResponses := material.ocspResponses + [der]);
        }
      case Crl(der) =>
        if der !in material.crls {
          material := material.(crls := material.crls + [der]);
        }
    }
  }

  function AddStatus(m: Material, evidence: StatusEvidence): Material {
    match evidence
    case Ocsp(der) => m.(ocspResponses := PushUnique(m.ocspResponses, der))
    case Crl(der) => m.(crls := PushUnique(m.crls, der))
  }

  ghost predicate HasEvidence(m: Material, evidence: StatusEvidence) {
    match evidence
    case Ocsp(der) => der in m.ocspResponses
    case Crl(der) => der in m.crls
  }

  ghost predicate Grows(small: Material, large: Material) {
    && small.certificates <= large.certificates
    && small.ocspResponses <= large.ocspResponses
    && small.crls <= large.crls
  }

  ghost predicate NoRepeats(m: Material) {
    Distinct(m.certificates) && Distinct(m.ocspResponses) && Distinct(m.crls)
  }

  lemma AddStatusCovers(m: Material, evidence: StatusEvidence)
    ensures var r := AddStatus(m, evidence);
            HasEvidence(r, evidence) && Grows(m, r) && r.certificates == m.certificates && (NoRepeats(m) ==> NoRepeats(r))
  {
  }

  lemma AddStatusAddsOne(m: Material, evidence: StatusEvidence)
    ensures forall e :: HasEvidence(AddStatus(m, evidence), e) <==> HasEvidence(m, e) || e == evidence
  {
  }

  // ----- which certificates of a path are stored

  /** The certificates of a complete path that go into the store. */
  function Retained(chain: seq<Der>, includeLeaf: bool, includeAnchor: bool): seq<Der>
    requires chain != []
  {
    (if includeLeaf then [chain[0]] else [])
    + (if |chain| >= 2 then chain[1..|chain| - 1] else [])
    + (if includeAnchor then [chain[|chain| - 1]] else [])
  }

  /** Everything strictly between leaf and anchor, and those two as the flags say. */
  lemma RetainedExactly(chain: seq<Der>, includeLeaf: bool, includeAnchor: bool, d: Der)
    requires chain != []
    ensures d in Retained(chain, includeLeaf, includeAnchor) <==>
            || (exists i :: 0 < i < |chain| - 1 && chain[i] == d)
            || (includeLeaf && d == chain[0])
            || (includeAnchor && d == chain[|chain| - 1])
  {
    if |chain| >= 2 {
      var middle := chain[1..|chain| - 1];
      assert forall i :: 0 < i < |chain| - 1 ==> chain[i] == middle[i - 1];
      assert d in middle <==> exists i :: 0 < i < |chain| - 1 && chain[i] == d;
    }
  }

  /** Certificates pushed when the walk stands at the end of `chain`, not yet knowing it is done. */
  ghost function PushedSoFar(chain: seq<Der>, includeLeaf: bool, keepLast: bool): seq<Der>
    requires chain != []
  {
    (if includeLeaf then [chain[0]] else [])
    + (if |chain| >= 2 then chain[1..|chain| - 1] + (if keepLast then [chain[|chain| - 1]] else []) else [])
  }

  lemma WalkPushesLink(chain: seq<Der>, issuer: Der, includeLeaf: bool, keepIssuer: bool, held: seq<Der>)
    requires chain != []
    ensures var longer := PushedSoFar(chain + [issuer], includeLeaf, keepIssuer);
            MergeUnique(held, longer)
            == if keepIssuer then PushUnique(MergeUnique(held, PushedSoFar(chain, includeLeaf, true)), issuer)
               else MergeUnique(held, PushedSoFar(chain, includeLeaf, true))
  {
    var pushed, longer := PushedSoFar(chain, includeLeaf, true), chain + [issuer];
    var leaf: seq<Der> := if includeLeaf then [chain[0]] else [];
    assert longer[1..|longer| - 1] == chain[1..];
    if |chain| >= 2 {
      assert chain[1..] == chain[1..|chain| - 1] + [chain[|chain| - 1]];
    }
    assert pushed == leaf + chain[1..];
    if keepIssuer {
      assert PushedSoFar(longer, includeLeaf, true) == pushed + [issuer];
      MergeUniqueSnoc(held, pushed, issuer);
    } else {
      assert PushedSoFar(longer, includeLeaf, false) == pushed;
    }
  }

  lemma WalkPushesAnchor(chain: seq<Der>, includeLeaf: bool, includeAnchor: bool, held: seq<Der>)
    requires chain != []
    ensures var m := MergeUnique(held, PushedSoFar(chain, includeLeaf, includeAnchor));
            MergeUnique(held, Retained(chain, includeLeaf, includeAnchor))
            == if includeAnchor then PushUnique(m, chain[|chain| - 1]) else m
  {
    var last := chain[|chain| - 1];
    var pushed := PushedSoFar(chain, includeLeaf, includeAnchor);
    if |chain| >= 2 {
      assert Retained(chain, includeLeaf, includeAnchor) == pushed;
      MergeUniqueIsUnion(held, pushed);
      assert includeAnchor ==> last in Elements(pushed);
    } else if includeAnchor {
      assert Retained(chain, includeLeaf, true) == pushed + [last];
      MergeUniqueSnoc(held, pushed, last);
    } else {
      assert Retained(chain, includeLeaf, false) == pushed;
    }
  }

  /** With both include flags the walk stores its whole path. */
  lemma RetainedWhole(chain: seq<Der>)
    requires chain != []
    ensures Elements(Retained(chain, true, true)) == Elements(chain)
  {
    var last := chain[|chain| - 1];
    if |chain| == 1 {
      assert Retained(chain, true, true) == [last, last];
    } else {
      assert chain == [chain[0]] + chain[1..|chain| - 1] + [last];
      assert Retained(chain, true, true) == chain;
    }
  }
}
