/** Operations on the list of entries of a period that several reports share: the member-id
    order, the total net pay and the split by category. */
module PeriodEntries {
  import opened Wrappers
  import opened Entities
  import MemberOrder

  /** The entries in the order of the listing: by member id. */
  function SortedByMemberId(entries: seq<Entry>): (r: seq<Entry>)
    ensures multiset(r) == multiset(entries) && |r| == |entries|
  {
    MemberOrder.SortBy(entries, MemberIdOf, MemberOrder.ByMemberId)
  }

  /** With consistently comparable member ids the order is non-decreasing. */
  lemma SortedByMemberIdIsSorted(entries: seq<Entry>)
    requires MemberOrder.Uniform(entries, MemberIdOf, MemberOrder.ByMemberId)
    ensures MemberOrder.Sorted(SortedByMemberId(entries), MemberIdOf, MemberOrder.ByMemberId)
  {
    MemberOrder.SortBySorted(entries, MemberIdOf, MemberOrder.ByMemberId);
  }

  /** The sum of the net payable of all entries. */
  function NetTotal(entries: seq<Entry>): int {
    if entries == [] then 0 else NetTotal(entries[..|entries| - 1]) + entries[|entries| - 1].netPayable
  }

  lemma {:induction false} NetTotalAppend(a: seq<Entry>, b: seq<Entry>)
    ensures NetTotal(a + b) == NetTotal(a) + NetTotal(b)
    decreases |b|
  {
    if b != [] {
      assert (a + b)[..|a + b| - 1] == a + b[..|b| - 1];
      NetTotalAppend(a, b[..|b| - 1]);
    } else {
      assert a + b == a;
    }
  }

  /** The total does not depend on the order of the entries. */
  lemma {:induction false} NetTotalPermutation(a: seq<Entry>, b: seq<Entry>)
    requires multiset(a) == multiset(b)
    ensures NetTotal(a) == NetTotal(b)
    decreases |a|
  {
    if a == [] {
      assert b == [] by { assert |multiset(b)| == 0; }
    } else {
      var x := a[|a| - 1];
      var front := a[..|a| - 1];
      assert a == front + [x];
      assert x in multiset(b);
      var k :| 0 <= k < |b| && b[k] == x;
      var rest := b[..k] + b[k + 1..];
      RemoveOne(a, b, k);
      SplitAt(b, k);
      NetTotalPermutation(front, rest);
      NetTotalAppend(front, [x]);
      NetTotalAppend(b[..k] + [x], b[k + 1..]);
      NetTotalAppend(b[..k], [x]);
      NetTotalAppend(b[..k], b[k + 1..]);
    }
  }

  /** Two permutations stay permutations once the last element of the first is taken out of
      the second where it occurs there. */
  lemma RemoveOne(a: seq<Entry>, b: seq<Entry>, k: int)
    requires a != [] && multiset(a) == multiset(b) && 0 <= k < |b| && b[k] == a[|a| - 1]
    ensures multiset(a[..|a| - 1]) == multiset(b[..k] + b[k + 1..])
  {
    var x := b[k];
    assert a == a[..|a| - 1] + [x];
    SplitAt(b, k);
    assert multiset(b) == multiset(b[..k]) + multiset{x} + multiset(b[k + 1..]);
    assert multiset(a) == multiset(a[..|a| - 1]) + multiset{x};
    assert multiset(b[..k] + b[k + 1..]) == multiset(b[..k]) + multiset(b[k + 1..]);
    assert multiset(a[..|a| - 1]) == multiset(a) - multiset{x};
    assert multiset(b[..k] + b[k + 1..]) == multiset(b) - multiset{x};
  }

  lemma SplitAt(b: seq<Entry>, k: int)
    requires 0 <= k < |b|
    ensures b == b[..k] + [b[k]] + b[k + 1..]
  {
  }

  /** Sorting loses no pay: the total over the sorted list is the total over the repository's. */
  lemma NetTotalOfSorted(entries: seq<Entry>)
    ensures NetTotal(SortedByMemberId(entries)) == NetTotal(entries)
  {
    NetTotalPermutation(SortedByMemberId(entries), entries);
  }

  /** The entries of one category, in repository order (`groupingBy` keeps encounter order). */
  function OfCategory(entries: seq<Entry>, category: Category): (r: seq<Entry>)
    ensures |r| <= |entries|
    ensures forall i :: 0 <= i < |r| ==> CategoryOf(r[i]) == Some(category) && r[i] in entries
  {
    if entries == [] then []
    else
      var last := entries[|entries| - 1];
      OfCategory(entries[..|entries| - 1], category) + (if CategoryOf(last) == Some(category) then [last] else [])
  }

  lemma {:induction false} CategoriesPartition(entries: seq<Entry>)
    requires forall i :: 0 <= i < |entries| ==> CategoryOf(entries[i]).Some?
    ensures |OfCategory(entries, HL)| + |OfCategory(entries, CL)| == |entries|
  {
    if entries != [] {
      var last := entries[|entries| - 1];
      var front := entries[..|entries| - 1];
      assert CategoryOf(last).Some?;
      CategoriesPartition(front);
      if CategoryOf(last) == Some(HL) {
        assert OfCategory(entries, HL) == OfCategory(front, HL) + [last];
        assert OfCategory(entries, CL) == OfCategory(front, CL);
      } else {
        assert CategoryOf(last).value != HL;
        assert CategoryOf(last).value.CL?;
        assert CategoryOf(last) == Some(CL);
        assert OfCategory(entries, HL) == OfCategory(front, HL);
        assert OfCategory(entries, CL) == OfCategory(front, CL) + [last];
      }
    }
  }
}
