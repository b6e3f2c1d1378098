/**
 The fuzzer's checkers: is a list of Troves ordered by collateral ratio, up
 to a tolerance, and do two sources return the same Troves?
 */
module TroveChecks {
  import opened Arithmetic
  import opened Decimal
  import opened Outcomes
  import opened TroveChanges

  /** An owner address and its Trove. */
  type Entry = (string, PendingTrove)

  /** 0.000000001 */
  const TINY: nat := 1_000_000_000

  function Ratio(e: Entry, totalRedistributed: Trove, price: nat): nat {
    e.1.ApplyRedistribution(totalRedistributed).trove.CollateralRatio(price)
  }

  function Ratios(list: seq<Entry>, totalRedistributed: Trove, price: nat): (r: seq<nat>)
    ensures |r| == |list|
  {
    seq(|list|, i requires 0 <= i < |list| => Ratio(list[i], totalRedistributed, price))
  }

  /** No ratio exceeds its predecessor by more than the tolerance. */
  predicate Descending(ratios: seq<nat>) {
    forall i :: 1 <= i < |ratios| ==> ratios[i] <= ratios[i - 1] + TINY
  }

  method SortedByICR(list: seq<Entry>, totalRedistributed: Trove, price: nat) returns (ok: bool)
    ensures ok <==> Descending(Ratios(list, totalRedistributed, price))
  {
    ghost var ratios := Ratios(list, totalRedistributed, price);
    if |list| < 2 {
      return true;
    }
    var current := list[0].1.ApplyRedistribution(totalRedistributed);
    for i := 1 to |list|
      invariant current == list[i - 1].1.ApplyRedistribution(totalRedistributed)
      invariant forall j :: 1 <= j < i ==> ratios[j] <= ratios[j - 1] + TINY
    {
      var next := list[i].1.ApplyRedistribution(totalRedistributed);
      assert next.trove.CollateralRatio(price) == ratios[i];
      assert current.trove.CollateralRatio(price) == ratios[i - 1];
      if next.trove.CollateralRatio(price) > current.trove.CollateralRatio(price) + TINY {
        return false;
      }
      current := next;
    }
    return true;
  }

  /** The tolerance adds up along the list, and no further. */
  lemma {:induction false} DescendingDrift(ratios: seq<nat>, i: nat, j: nat)
    requires Descending(ratios)
    requires i <= j < |ratios|
    ensures ratios[j] <= ratios[i] + (j - i) * TINY
    decreases j
  {
    if i < j {
      DescendingDrift(ratios, i, j - 1);
    }
  }

  /** Line i is flagged when its ratio minus the tolerance exceeds the ratio before it. */
  function Flags(ratios: seq<nat>): (f: seq<bool>)
    ensures |f| == |ratios|
  {
    seq(|ratios|, i requires 0 <= i < |ratios| => i >= 1 && ratios[i] - TINY > ratios[i - 1])
  }

  /** Whether some line after the first has a ratio from which the tolerance cannot be subtracted. */
  predicate Underflows(ratios: seq<nat>) {
    exists i :: 1 <= i < |ratios| && ratios[i] < TINY
  }

  /** Prints the list, marking the lines that break the order; throws when the subtraction underflows. */
  method DumpTroves(list: seq<Entry>, totalRedistributed: Trove, price: nat) returns (r: Result<seq<bool>>)
    ensures r == (var ratios := Ratios(list, totalRedistributed, price);
                  if Underflows(ratios) then Err else Ok(Flags(ratios)))
  {
    ghost var ratios := Ratios(list, totalRedistributed, price);
    if |list| == 0 {
      return Ok([]);
    }
    var current := list[0];
    var flags := [false];
    for i := 1 to |list|
      invariant current == list[i - 1]
      invariant flags == Flags(ratios)[..i]
      invariant forall j :: 1 <= j < i ==> ratios[j] >= TINY
    {
      var next := list[i];
      assert Ratio(next, totalRedistributed, price) == ratios[i];
      assert Ratio(current, totalRedistributed, price) == ratios[i - 1];
      var reduced := Sub(Ratio(next, totalRedistributed, price), TINY);
      if reduced.Err? {
        assert 1 <= i < |ratios| && ratios[i] < TINY;
        return Err;
      }
      flags := flags + [reduced.value > Ratio(current, totalRedistributed, price)];
      current := next;
    }
    assert Flags(ratios)[..|list|] == Flags(ratios);
    r := Ok(flags);
  }

  /**
   Whenever the listing completes, the check rejects the order exactly when
   some line of the listing is flagged.
   */
  lemma RejectedIffFlagged(ratios: seq<nat>)
    requires !Underflows(ratios)
    ensures !Descending(ratios) <==> true in Flags(ratios)
  {
    if !Descending(ratios) {
      var i :| 1 <= i < |ratios| && ratios[i] > ratios[i - 1] + TINY;
      assert Flags(ratios)[i];
    }
    if true in Flags(ratios) {
      var i :| 0 <= i < |ratios| && Flags(ratios)[i];
      assert ratios[i] > ratios[i - 1] + TINY;
    }
  }

  datatype OrderingOutcome = InOrder | OrderingIsBroken | NegativesNotSupported

  /**
   The list is dumped before "ordering is broken" is thrown, so a ratio
   below the tolerance replaces that error by the one of the subtraction.
   */
  method CheckTroveOrdering(list: seq<Entry>, totalRedistributed: Trove, price: nat,
                            previous: Option<seq<Entry>>) returns (r: OrderingOutcome)
    ensures var ratios := Ratios(list, totalRedistributed, price);
            && (r == InOrder <==> Descending(ratios))
            && (r == NegativesNotSupported <==>
                  && !Descending(ratios)
                  && (Underflows(ratios)
                      || (previous.Some? && Underflows(Ratios(previous.value, totalRedistributed, price)))))
  {
    var ok := SortedByICR(list, totalRedistributed, price);
    if ok {
      return InOrder;
    }
    if previous.Some? {
      var dumped := DumpTroves(previous.value, totalRedistributed, price);
      if dumped.Err? {
        return NegativesNotSupported;
      }
    }
    var dumped := DumpTroves(list, totalRedistributed, price);
    return if dumped.Err? then NegativesNotSupported else OrderingIsBroken;
  }

  // ----- Comparing two lists

  /** `new Map(list)`: later entries win. */
  function ToMap(list: seq<Entry>): map<string, PendingTrove> {
    if list == [] then map[] else ToMap(list[..|list| - 1])[list[|list| - 1].0 := list[|list| - 1].1]
  }

  predicate Accepted(a: seq<Entry>, b: seq<Entry>) {
    && |a| == |b|
    && forall i :: 0 <= i < |a| ==> a[i].0 in ToMap(b) && ToMap(b)[a[i].0] == a[i].1
  }

  method ListOfTrovesShouldBeEqual(a: seq<Entry>, b: seq<Entry>) returns (r: Result<()>)
    ensures r.Ok? <==> Accepted(a, b)
  {
    if |a| != |b| {
      return Err;
    }
    var mapB := ToMap(b);
    for i := 0 to |a|
      invariant forall j :: 0 <= j < i ==> a[j].0 in mapB && mapB[a[j].0] == a[j].1
    {
      if a[i].0 !in mapB {
        return Err;
      }
      if a[i].1 != mapB[a[i].0] {
        return Err;
      }
    }
    r := Ok(());
  }

  predicate DistinctOwners(list: seq<Entry>) {
    forall i, j :: 0 <= i < j < |list| ==> list[i].0 != list[j].0
  }

  function Owners(list: seq<Entry>): set<string> {
    set i | 0 <= i < |list| :: list[i].0
  }

  lemma {:induction false} MapKeysAreOwners(list: seq<Entry>)
    ensures ToMap(list).Keys == Owners(list)
    ensures forall k :: k in ToMap(list) ==> (k, ToMap(list)[k]) in list
  {
    if list != [] {
      var init, last := list[..|list| - 1], list[|list| - 1];
      assert list == init + [last];
      MapKeysAreOwners(init);
      assert Owners(list) == Owners(init) + {last.0};
    }
  }

  /** A list has as many owners as entries exactly when no owner repeats. */
  lemma {:induction false} OwnersCount(list: seq<Entry>)
    ensures |Owners(list)| <= |list|
    ensures |Owners(list)| == |list| <==> DistinctOwners(list)
  {
    if list == [] {
    } else {
      var init, last := list[..|list| - 1], list[|list| - 1];
      assert list == init + [last];
      OwnersCount(init);
      assert Owners(list) == Owners(init) + {last.0};
      if last.0 in Owners(init) {
        var i :| 0 <= i < |init| && init[i].0 == last.0;
        assert list[i].0 == list[|list| - 1].0;
      } else {
        assert forall i :: 0 <= i < |init| ==> init[i].0 in Owners(init);
      }
    }
  }

  lemma SubsetOfSameSize(a: set<string>, b: set<string>)
    requires a <= b && |b| <= |a|
    ensures a == b
  {
    assert b == a + (b - a);
    assert |b| == |a| + |b - a|;
  }

  /** Entries with distinct owners occur once each. */
  lemma {:induction false} DistinctCounts(list: seq<Entry>, e: Entry)
    requires DistinctOwners(list)
    ensures multiset(list)[e] == if e in list then 1 else 0
  {
    if list != [] {
      var init, last := list[..|list| - 1], list[|list| - 1];
      assert list == init + [last];
      DistinctCounts(init, e);
    }
  }

  /**
   Only one direction is checked, and duplicates in the second list are not
   looked for; counting closes both gaps.
   */
  lemma AcceptedSharesOwners(a: seq<Entry>, b: seq<Entry>)
    requires DistinctOwners(a)
    requires Accepted(a, b)
    ensures DistinctOwners(b)
    ensures Owners(a) == Owners(b)
  {
    MapKeysAreOwners(b);
    OwnersCount(a);
    OwnersCount(b);
    SubsetOfSameSize(Owners(a), Owners(b));
  }

  /** Hence, when the first list has distinct owners, acceptance means that the lists are permutations of each other. */
  lemma AcceptedIffPermutation(a: seq<Entry>, b: seq<Entry>)
    requires DistinctOwners(a)
    ensures Accepted(a, b) <==> multiset(a) == multiset(b)
  {
    if Accepted(a, b) {
      AcceptedImpliesPermutation(a, b);
    }
    if multiset(a) == multiset(b) {
      PermutationImpliesAccepted(a, b);
    }
  }

  lemma AcceptedImpliesPermutation(a: seq<Entry>, b: seq<Entry>)
    requires DistinctOwners(a)
    requires Accepted(a, b)
    ensures multiset(a) == multiset(b)
  {
    AcceptedSharesOwners(a, b);
    MapKeysAreOwners(b);
    forall e: Entry
      ensures multiset(a)[e] == multiset(b)[e]
    {
      DistinctCounts(a, e);
      DistinctCounts(b, e);
      if e in a {
        var i :| 0 <= i < |a| && a[i] == e;
        assert (e.0, ToMap(b)[e.0]) in b;
      }
      if e in b {
        var j :| 0 <= j < |b| && b[j] == e;
        assert e.0 in Owners(a);
        var i :| 0 <= i < |a| && a[i].0 == e.0;
        var k :| 0 <= k < |b| && b[k] == (a[i].0, ToMap(b)[a[i].0]);
        assert j == k;
      }
    }
  }

  lemma PermutationImpliesAccepted(a: seq<Entry>, b: seq<Entry>)
    requires DistinctOwners(a)
    requires multiset(a) == multiset(b)
    ensures Accepted(a, b)
  {
    assert |a| == |multiset(a)| == |multiset(b)| == |b|;
    MapKeysAreOwners(b);
    forall i | 0 <= i < |a|
      ensures a[i].0 in ToMap(b) && ToMap(b)[a[i].0] == a[i].1
    {
      assert a[i] in multiset(b);
      var j :| 0 <= j < |b| && b[j] == a[i];
      assert a[i].0 in Owners(b);
      var e := (a[i].0, ToMap(b)[a[i].0]);
      assert e in multiset(a);
      var k :| 0 <= k < |a| && a[k] == e;
      assert k == i;
    }
  }
}
