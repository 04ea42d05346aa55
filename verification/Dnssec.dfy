/** Merging locally validated DNSSEC answers for the two address families. */
module Dnssec {
  import opened Basics

  type Address = seq<byte>

  datatype Proof = ProvedSecure | ProvedBogus | Insecure | Indeterminate

  datatype Record = Record(proof: Proof, address: Option<Address>)

  datatype Lookup = Secure(addresses: seq<Address>) | SecureEmpty | Fallback | Bogus

  /** The addresses among the first `n` records, in order. */
  function AddressesUpTo(records: seq<Record>, n: nat): seq<Address>
    requires n <= |records|
  {
    if n == 0 then []
    else if records[n - 1].address.Some? then AddressesUpTo(records, n - 1) + [records[n - 1].address.value]
    else AddressesUpTo(records, n - 1)
  }

  function AddressesOf(records: seq<Record>): seq<Address> {
    AddressesUpTo(records, |records|)
  }

  ghost predicate AllSecure(records: seq<Record>) {
    records != [] && forall r :: r in records ==> r.proof == ProvedSecure
  }

  ghost predicate HasBogus(records: seq<Record>) {
    exists r :: r in records && r.proof == ProvedBogus
  }

  /** What one family's records prove: any bogus record is fatal, any record short of
      secure (or none at all) proves nothing. */
  ghost function Classify(records: seq<Record>): Lookup {
    if HasBogus(records) then Bogus
    else if !AllSecure(records) then Fallback
    else if AddressesOf(records) == [] then SecureEmpty
    else Secure(MergeUnique([], AddressesOf(records)))
  }

  method ClassifyProvenAddresses(records: seq<Record>) returns (r: Lookup)
    ensures r == Classify(records)
  {
    var addresses, sawRecord, needsFallback := [], false, false;
    for i := 0 to |records|
      invariant sawRecord == (i > 0)
      invariant forall j :: 0 <= j < i ==> records[j].proof != ProvedBogus
      invariant needsFallback == Weak(records, i)
      invariant !needsFallback ==> addresses == MergeUnique([], AddressesUpTo(records, i))
    {
      sawRecord := true;
      match records[i].proof
      case ProvedSecure =>
        if records[i].address.Some? {
          MergeUniqueSnoc([], AddressesUpTo(records, i), records[i].address.value);
          if records[i].address.value !in addresses {
            addresses := addresses + [records[i].address.value];
          }
        }
      case ProvedBogus =>
        assert records[i] in records;
        return Bogus;
      case _ => needsFallback := true;
    }
    ScanClassifies(records);
    r := if !sawRecord || needsFallback then Fallback
         else if addresses == [] then SecureEmpty
         else Secure(addresses);
  }

  /** Some of the first `n` records is not proved secure. */
  predicate Weak(records: seq<Record>, n: nat)
    requires n <= |records|
  {
    n > 0 && (records[n - 1].proof != ProvedSecure || Weak(records, n - 1))
  }

  lemma {:induction false} WeakMeans(records: seq<Record>, n: nat)
    requires n <= |records|
    ensures Weak(records, n) <==> exists j :: 0 <= j < n && records[j].proof != ProvedSecure
  {
    if n > 0 {
      WeakMeans(records, n - 1);
    }
  }

  lemma ScanClassifies(records: seq<Record>)
    requires forall j :: 0 <= j < |records| ==> records[j].proof != ProvedBogus
    ensures var addresses := MergeUnique([], AddressesOf(records));
            Classify(records)
            == if records == [] || Weak(records, |records|) then Fallback
               else if addresses == [] then SecureEmpty
               else Secure(addresses)
  {
    MergedIsEmptyWhen(AddressesOf(records));
    WeakMeans(records, |records|);
    assert forall x :: x in records ==> exists j :: 0 <= j < |records| && records[j] == x;
    assert forall j :: 0 <= j < |records| ==> records[j] in records;
  }

  lemma MergedIsEmptyWhen<T(!new)>(from: seq<T>)
    ensures MergeUnique([], from) == [] <==> from == []
  {
    if from != [] {
      var last := from[|from| - 1];
      assert last in PushUnique(MergeUnique([], from[..|from| - 1]), last);
    }
  }

  function Found(lookup: Lookup): seq<Address> {
    if lookup.Secure? then lookup.addresses else []
  }

  method AppendNew(before: seq<Address>, found: seq<Address>) returns (addresses: seq<Address>)
    ensures addresses == MergeUnique(before, found)
  {
    addresses := before;
    for j := 0 to |found|
      invariant addresses == MergeUnique(before, found[..j])
    {
      assert found[..j + 1] == found[..j] + [found[j]];
      MergeUniqueSnoc(before, found[..j], found[j]);
      if found[j] !in addresses {
        addresses := addresses + [found[j]];
      }
    }
    assert found[..|found|] == found;
  }

  method CombineLookups(first: Lookup, second: Lookup) returns (r: Lookup)
    ensures r == Combine(first, second)
  {
    var hasSecureEmpty := first == SecureEmpty || second == SecureEmpty;
    var hasBogus := first == Bogus || second == Bogus;
    var addresses := [];
    var lookups := [first, second];
    for i := 0 to 2
      invariant i == 0 ==> addresses == []
      invariant i == 1 ==> addresses == MergeUnique([], Found(first))
      invariant i == 2 ==> addresses == MergeUnique(MergeUnique([], Found(first)), Found(second))
    {
      addresses := AppendNew(addresses, Found(lookups[i]));
    }
    r := if addresses != [] then Secure(addresses)
         else if hasBogus then Bogus
         else if hasSecureEmpty then SecureEmpty
         else Fallback;
  }

  function Combine(first: Lookup, second: Lookup): Lookup {
    var addresses := MergeUnique(MergeUnique([], Found(first)), Found(second));
    if addresses != [] then Secure(addresses)
    else if first == Bogus || second == Bogus then Bogus
    else if first == SecureEmpty || second == SecureEmpty then SecureEmpty
    else Fallback
  }

  /** Secure beats Bogus beats SecureEmpty beats Fallback. */
  function Rank(lookup: Lookup): nat {
    match lookup
    case Secure(addresses) => if addresses != [] then 3 else 0
    case Bogus => 2
    case SecureEmpty => 1
    case Fallback => 0
  }

  /** The same verdict with the same addresses, in whatever order. */
  ghost predicate Same(a: Lookup, b: Lookup) {
    Rank(a) == Rank(b) && Elements(Found(a)) == Elements(Found(b))
  }

  lemma CombineIsJoin(a: Lookup, b: Lookup)
    ensures var c := Combine(a, b);
            && Rank(c) == (if Rank(a) >= Rank(b) then Rank(a) else Rank(b))
            && Elements(Found(c)) == Elements(Found(a)) + Elements(Found(b))
            && Distinct(Found(c))
  {
    var left := MergeUnique([], Found(a));
    MergeUniqueIsUnion([], Found(a));
    MergeUniqueIsUnion(left, Found(b));
    var c := Combine(a, b);
    var all := MergeUnique(left, Found(b));
    assert Elements(all) == Elements(Found(a)) + Elements(Found(b));
    MergedIsEmptyWhen(Found(a));
    assert Found(b) != [] ==> Found(b)[0] in Elements(all);
    assert left != [] ==> left[0] in Elements(all);
    assert all != [] ==> all[0] in Elements(all);
  }

  lemma CombineCommutes(a: Lookup, b: Lookup)
    ensures Same(Combine(a, b), Combine(b, a))
    ensures Rank(Combine(a, b)) == 0 <==> Rank(a) == 0 && Rank(b) == 0
  {
    CombineIsJoin(a, b);
    CombineIsJoin(b, a);
  }

  lemma CombineAssociates(a: Lookup, b: Lookup, c: Lookup)
    ensures Same(Combine(Combine(a, b), c), Combine(a, Combine(b, c)))
  {
    var ab, bc := Combine(a, b), Combine(b, c);
    CombineIsJoin(a, b);
    CombineIsJoin(b, c);
    CombineIsJoin(ab, c);
    CombineIsJoin(a, bc);
  }

  /** Hence commutative, associative and idempotent up to address order, and a
      fallback only when both sides fall back. */
  lemma CombineLaws(a: Lookup, b: Lookup, c: Lookup)
    ensures Same(Combine(a, b), Combine(b, a))
    ensures Same(Combine(Combine(a, b), c), Combine(a, Combine(b, c)))
    ensures Same(Combine(a, a), a)
    ensures Rank(Combine(a, b)) == 0 <==> Rank(a) == 0 && Rank(b) == 0
  {
    CombineCommutes(a, b);
    CombineAssociates(a, b, c);
    CombineIsJoin(a, a);
  }

  lemma {:induction false} AddressesAreRecorded(records: seq<Record>, n: nat, a: Address)
    requires n <= |records|
    ensures a in AddressesUpTo(records, n) <==> exists j :: 0 <= j < n && records[j].address == Some(a)
    decreases n
  {
    if n > 0 {
      AddressesAreRecorded(records, n - 1, a);
    }
  }

  ghost predicate Recorded(records: seq<Record>, a: Address) {
    exists r :: r in records && r.address == Some(a)
  }

  lemma RecordedAddresses(records: seq<Record>, a: Address)
    ensures a in AddressesOf(records) <==> Recorded(records, a)
  {
    AddressesAreRecorded(records, |records|, a);
    if a in AddressesOf(records) {
      var j :| 0 <= j < |records| && records[j].address == Some(a);
      assert records[j] in records;
    }
    if Recorded(records, a) {
      var r :| r in records && r.address == Some(a);
      var j :| 0 <= j < |records| && records[j] == r;
    }
  }

  lemma FamilyAddresses(records: seq<Record>, a: Address)
    ensures a in Elements(Found(Classify(records))) <==> AllSecure(records) && Recorded(records, a)
  {
    RecordedAddresses(records, a);
    var addresses := AddressesOf(records);
    MergeUniqueIsUnion([], addresses);
    assert a in addresses <==> a in Elements(addresses);
    if AllSecure(records) {
      assert !HasBogus(records);
    }
  }

  /** The verdict depends on the records only as a set. */
  lemma SameMembersSameVerdict(records: seq<Record>, other: seq<Record>)
    requires forall r :: r in records <==> r in other
    ensures Rank(Classify(records)) == Rank(Classify(other))
  {
    MergedIsEmptyWhen(AddressesOf(records));
    MergedIsEmptyWhen(AddressesOf(other));
    if AddressesOf(records) != [] {
      RecordedAddresses(records, AddressesOf(records)[0]);
      RecordedAddresses(other, AddressesOf(records)[0]);
    }
    if AddressesOf(other) != [] {
      RecordedAddresses(records, AddressesOf(other)[0]);
      RecordedAddresses(other, AddressesOf(other)[0]);
    }
    assert records == [] <==> other == [] by {
      assert records != [] ==> records[0] in other;
      assert other != [] ==> other[0] in records;
    }
  }

  /** The order of a family's records does not matter. */
  lemma ClassifyIgnoresOrder(records: seq<Record>, shuffled: seq<Record>)
    requires multiset(records) == multiset(shuffled)
    ensures Same(Classify(records), Classify(shuffled))
  {
    assert forall r :: r in records <==> r in multiset(records);
    assert forall r :: r in shuffled <==> r in multiset(shuffled);
    SameMembersSameVerdict(records, shuffled);
    forall a
      ensures a in Elements(Found(Classify(records))) <==> a in Elements(Found(Classify(shuffled)))
    {
      FamilyAddresses(records, a);
      FamilyAddresses(shuffled, a);
    }
  }

  /** The addresses a name resolves to securely are exactly those recorded in a
      family all of whose records are proved secure. */
  lemma ResolvedAddressesAreProved(ipv4: seq<Record>, ipv6: seq<Record>, a: Address)
    ensures a in Found(Combine(Classify(ipv4), Classify(ipv6))) <==>
              (AllSecure(ipv4) && Recorded(ipv4, a)) || (AllSecure(ipv6) && Recorded(ipv6, a))
  {
    CombineIsJoin(Classify(ipv4), Classify(ipv6));
    var all := Found(Combine(Classify(ipv4), Classify(ipv6)));
    assert a in all <==> a in Elements(all);
    FamilyAddresses(ipv4, a);
    FamilyAddresses(ipv6, a);
  }

  // ----- both steps, spelled out

  /** Address `x` is recorded before `y` is, if `y` is. */
  ghost predicate RecordedBefore(records: seq<Record>, x: Address, y: Address) {
    exists i :: 0 <= i < |records| && records[i].address == Some(x) && forall j :: 0 <= j <= i ==> records[j].address != Some(y)
  }

  lemma {:induction false} OrderIsRecorded(records: seq<Record>, n: nat, x: Address, y: Address)
    requires n <= |records| && OccursBefore(AddressesUpTo(records, n), x, y)
    ensures exists i :: 0 <= i < n && records[i].address == Some(x) && forall j :: 0 <= j <= i ==> records[j].address != Some(y)
    decreases n
  {
    var all := AddressesUpTo(records, n);
    var i :| 0 <= i < |all| && all[i] == x && y !in all[..i + 1];
    var shorter := AddressesUpTo(records, n - 1);
    if i < |shorter| {
      assert all[..i + 1] == shorter[..i + 1];
      OrderIsRecorded(records, n - 1, x, y);
    } else {
      assert all[..i + 1] == all;
      AddressesAreRecorded(records, n, y);
    }
  }

  /** What one family's records come to, case by case. */
  lemma ClassifyExactly(records: seq<Record>)
    ensures var r := Classify(records);
            var bogus := exists i :: 0 <= i < |records| && records[i].proof == ProvedBogus;
            var secure := records != [] && forall i :: 0 <= i < |records| ==> records[i].proof == ProvedSecure;
            var some := exists i :: 0 <= i < |records| && records[i].address.Some?;
            && (bogus ==> r == Bogus)
            && (!bogus && !secure ==> r == Fallback)
            && (!bogus && secure && !some ==> r == SecureEmpty)
            && (!bogus && secure && some ==>
                  && r.Secure? && Distinct(r.addresses)
                  && (forall a :: a in r.addresses <==> exists i :: 0 <= i < |records| && records[i].address == Some(a))
                  && forall i, j :: 0 <= i < j < |r.addresses| ==> RecordedBefore(records, r.addresses[i], r.addresses[j]))
  {
    assert forall i :: 0 <= i < |records| ==> records[i] in records;
    var all := AddressesOf(records);
    MergeUniqueIsUnion([], all);
    MergedInFirstOrder(all);
    var r := Classify(records);
    forall a
      ensures a in all <==> exists i :: 0 <= i < |records| && records[i].address == Some(a)
    {
      AddressesAreRecorded(records, |records|, a);
    }
    if i :| 0 <= i < |records| && records[i].address.Some? {
      assert records[i].address.value in all;
    }
    if all != [] {
      assert all[0] in all;
    }
    if r.Secure? {
      forall a
        ensures a in r.addresses <==> a in all
      {
        assert a in Elements(r.addresses) <==> a in Elements(all);
      }
      forall i, j | 0 <= i < j < |r.addresses|
        ensures RecordedBefore(records, r.addresses[i], r.addresses[j])
      {
        OrderIsRecorded(records, |records|, r.addresses[i], r.addresses[j]);
      }
    }
  }

  /** What two families come to together: every address either found, the first
      family's before the second's; without one, the worse of what they report. */
  lemma CombineExactly(first: Lookup, second: Lookup)
    ensures var r := Combine(first, second);
            var found := (if first.Secure? then first.addresses else []) + (if second.Secure? then second.addresses else []);
            if found != [] then
              && r.Secure? && Distinct(r.addresses) && InFirstOrder(found, r.addresses)
              && forall a :: a in found ==> a in r.addresses
            else if first == Bogus || second == Bogus then r == Bogus
            else if first == SecureEmpty || second == SecureEmpty then r == SecureEmpty
            else r == Fallback
  {
    var a, b := Found(first), Found(second);
    MergeUniqueConcat([], a, b);
    MergedInFirstOrder(a + b);
    MergeUniqueIsUnion([], a + b);
    MergedIsEmptyWhen(a + b);
    var r := Combine(first, second);
    forall x | x in a + b
      ensures x in MergeUnique([], a + b)
    {
      assert x in Elements(a + b);
    }
  }
}
