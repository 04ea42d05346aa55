/** Types shared by every component, and the "append unless already held" lists
    that the client keeps certificates, revocation answers and candidates in. */
module Basics {

  newtype byte = x: int | 0 <= x < 256

  datatype Option<+T> = None | Some(value: T)

  datatype Result<+T, +E> = Ok(value: T) | Err(error: E)

  /** An encoded object, compared byte for byte. */
  datatype Der = Der(octets: seq<byte>)

  ghost predicate Distinct<T(!new)>(s: seq<T>) {
    forall i, j :: 0 <= i < j < |s| ==> s[i] != s[j]
  }

  ghost function Elements<T(!new)>(s: seq<T>): set<T> {
    set x | x in s
  }

  function PushUnique<T(==)>(s: seq<T>, x: T): seq<T> {
    if x in s then s else s + [x]
  }

  function MergeUnique<T(==)>(into: seq<T>, from: seq<T>): seq<T>
    decreases |from|
  {
    if from == [] then into
    else PushUnique(MergeUnique(into, from[..|from| - 1]), from[|from| - 1])
  }

  /** Merging keeps what was there as a prefix, adds exactly the new elements,
      and never introduces a repetition. */
  lemma {:induction false} MergeUniqueIsUnion<T(!new)>(into: seq<T>, from: seq<T>)
    ensures into <= MergeUnique(into, from)
    ensures Elements(MergeUnique(into, from)) == Elements(into) + Elements(from)
    ensures Distinct(into) ==> Distinct(MergeUnique(into, from))
    decreases |from|
  {
    if from != [] {
      var rest, last := from[..|from| - 1], from[|from| - 1];
      assert from == rest + [last];
      MergeUniqueIsUnion(into, rest);
      var merged := MergeUnique(into, rest);
      assert Elements(PushUnique(merged, last)) == Elements(merged) + {last};
      assert Elements(from) == Elements(rest) + {last};
    }
  }

  lemma {:induction false} MergeUniqueAbsorbs<T(!new)>(into: seq<T>, from: seq<T>)
    requires Elements(from) <= Elements(into)
    ensures MergeUnique(into, from) == into
    decreases |from|
  {
    if from != [] {
      var rest, last := from[..|from| - 1], from[|from| - 1];
      assert last in Elements(from);
      assert forall x :: x in rest ==> x in Elements(from);
      MergeUniqueAbsorbs(into, rest);
    }
  }

  lemma MergeUniqueIdempotent<T(!new)>(into: seq<T>, from: seq<T>)
    ensures MergeUnique(MergeUnique(into, from), from) == MergeUnique(into, from)
  {
    MergeUniqueIsUnion(into, from);
    MergeUniqueAbsorbs(MergeUnique(into, from), from);
  }

  lemma MergeUniqueSnoc<T>(into: seq<T>, from: seq<T>, x: T)
    ensures MergeUnique(into, from + [x]) == PushUnique(MergeUnique(into, from), x)
  {
    assert (from + [x])[..|from|] == from;
  }

  lemma {:induction false} MergeUniqueConcat<T>(into: seq<T>, a: seq<T>, b: seq<T>)
    ensures MergeUnique(into, a + b) == MergeUnique(MergeUnique(into, a), b)
    decreases |b|
  {
    if b == [] {
      assert a + b == a;
    } else {
      var rest, last := b[..|b| - 1], b[|b| - 1];
      assert a + b == (a + rest) + [last];
      MergeUniqueSnoc(into, a + rest, last);
      MergeUniqueConcat(into, a, rest);
    }
  }

  // ----- order of first occurrence

  /** `x` occurs in `all` before `y` does, if `y` does. */
  ghost predicate OccursBefore<T(!new)>(all: seq<T>, x: T, y: T) {
    exists i :: 0 <= i < |all| && all[i] == x && y !in all[..i + 1]
  }

  /** `some` lists different elements of `all` in the order of their first occurrence. */
  ghost predicate InFirstOrder<T(!new)>(all: seq<T>, some: seq<T>) {
    && (forall a :: 0 <= a < |some| ==> some[a] in all)
    && (forall a, b :: 0 <= a < b < |some| ==> OccursBefore(all, some[a], some[b]))
  }

  lemma OccursBeforeExtends<T(!new)>(all: seq<T>, more: T, x: T, y: T)
    requires OccursBefore(all, x, y)
    ensures OccursBefore(all + [more], x, y)
  {
    var i :| 0 <= i < |all| && all[i] == x && y !in all[..i + 1];
    assert (all + [more])[..i + 1] == all[..i + 1] && (all + [more])[i] == x;
  }

  lemma OccursBeforeNew<T(!new)>(all: seq<T>, x: T, y: T)
    requires x in all && y !in all
    ensures OccursBefore(all, x, y)
  {
    var i :| 0 <= i < |all| && all[i] == x;
    assert y !in all[..i + 1];
  }

  /** Merging into nothing lists the elements once each, in the order they first occur. */
  lemma {:induction false} MergedInFirstOrder<T(!new)>(from: seq<T>)
    ensures InFirstOrder(from, MergeUnique([], from))
    decreases |from|
  {
    if from != [] {
      var rest, last := from[..|from| - 1], from[|from| - 1];
      var before, merged := MergeUnique([], rest), MergeUnique([], from);
      assert from == rest + [last];
      MergedInFirstOrder(rest);
      MergeUniqueIsUnion([], rest);
      forall a, b | 0 <= a < b < |merged|
        ensures OccursBefore(from, merged[a], merged[b])
      {
        if b < |before| {
          OccursBeforeExtends(rest, last, before[a], before[b]);
        } else {
          assert last in rest ==> last in Elements(before);
          OccursBeforeNew(rest, before[a], last);
          OccursBeforeExtends(rest, last, before[a], last);
        }
      }
    }
  }
}
