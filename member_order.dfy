/** The ordering every listing and export applies: by member id, numerically when both ids parse as
    `int` and by `String.compareTo` otherwise; and the attendance register's ordering by name.
    `List.sort` on fewer than 32 elements is the binary insertion sort of Java's TimSort below. */
module MemberOrder {
  import opened Wrappers
  import Text

  /** The sign of Java's `a.compareTo(b)`: the first differing character decides, else the length.
      A `char` here is a Unicode scalar value, so characters compare by code point. */
  function LexCompare(a: string, b: string): (c: int)
    ensures -1 <= c <= 1
    ensures c == 0 <==> a == b
  {
    if a == [] then (if b == [] then 0 else -1)
    else if b == [] then 1
    else if a[0] < b[0] then -1
    else if a[0] > b[0] then 1
    else
      var c := LexCompare(a[1..], b[1..]);
      assert a == [a[0]] + a[1..] && b == [b[0]] + b[1..];
      c
  }

  lemma {:induction false} LexAntisymmetric(a: string, b: string)
    ensures LexCompare(b, a) == -LexCompare(a, b)
  {
    if a != [] && b != [] && a[0] == b[0] {
      LexAntisymmetric(a[1..], b[1..]);
    }
  }

  lemma {:induction false} LexTransitive(a: string, b: string, c: string)
    requires LexCompare(a, b) <= 0 && LexCompare(b, c) <= 0
    ensures LexCompare(a, c) <= 0
  {
    if a != [] && b != [] && c != [] && a[0] == b[0] == c[0] {
      LexTransitive(a[1..], b[1..], c[1..]);
    }
  }

  predicate IsNumeric(id: string) { Text.ParseInt(id).Some? }

  /** The sign of the member-id comparator written out in every listing. */
  function CompareIds(a: string, b: string): (c: int)
    ensures -1 <= c <= 1
  {
    var x, y := Text.ParseInt(a), Text.ParseInt(b);
    if x.Some? && y.Some? then (if x.value < y.value then -1 else if x.value > y.value then 1 else 0)
    else LexCompare(a, b)
  }

  /** Sorting by member id, or by name with plain `compareTo`. */
  datatype Order = ByMemberId | ByName

  function Compare(order: Order, a: string, b: string): (c: int)
    ensures -1 <= c <= 1
  {
    if order == ByMemberId then CompareIds(a, b) else LexCompare(a, b)
  }

  predicate Leq(order: Order, a: string, b: string) { Compare(order, a, b) <= 0 }

  predicate Less(order: Order, a: string, b: string) { Compare(order, a, b) < 0 }

  lemma CompareAntisymmetric(order: Order, a: string, b: string)
    ensures Compare(order, b, a) == -Compare(order, a, b)
  {
    LexAntisymmetric(a, b);
  }

  /** Keys the comparator orders consistently: any key for the name order; for the member-id order,
      ids that all parse as numbers or none of which does. */
  predicate Comparable(order: Order, a: string, b: string, c: string) {
    order == ByName
    || (IsNumeric(a) && IsNumeric(b) && IsNumeric(c))
    || (!IsNumeric(a) && !IsNumeric(b) && !IsNumeric(c))
  }

  lemma CompareTransitive(order: Order, a: string, b: string, c: string)
    requires Comparable(order, a, b, c)
    requires Leq(order, a, b) && Leq(order, b, c)
    ensures Leq(order, a, c)
  {
    if order == ByName || !IsNumeric(a) {
      LexTransitive(a, b, c);
    }
  }

  /** With mixed numeric and non-numeric ids the comparator is not an order: "2" < "10" numerically,
      "10" < "1a" and "1a" < "2" by code units, so no arrangement of the three is sorted. */
  lemma MixedIdsCycle()
    ensures Less(ByMemberId, "2", "10") && Less(ByMemberId, "10", "1a") && Less(ByMemberId, "1a", "2")
  {
    assert Text.ParseInt("1a").None? by { assert !Text.AllDigits("1a"); }
    assert Text.ParseInt("2") == Some(2) by { assert Text.DigitsValue("2") == 2; }
    assert Text.ParseInt("10") == Some(10) by {
      assert "10"[..1] == "1";
      assert Text.DigitsValue("10") == 10;
    }
  }

  // ---------------------------------------------------------------------------
  // Stable sorting
  // ---------------------------------------------------------------------------

  /** All keys of `s` are ordered consistently by `order`. */
  predicate Uniform<T>(s: seq<T>, key: T -> string, order: Order) {
    order == ByName
    || (forall i :: 0 <= i < |s| ==> IsNumeric(key(s[i])))
    || (forall i :: 0 <= i < |s| ==> !IsNumeric(key(s[i])))
  }

  predicate Sorted<T>(s: seq<T>, key: T -> string, order: Order) {
    forall i, j :: 0 <= i < j < |s| ==> Leq(order, key(s[i]), key(s[j]))
  }

  /** Every element of `s` is an element of the uniform `t`, so `s` is uniform too. */
  lemma UniformSub<T>(s: seq<T>, t: seq<T>, key: T -> string, order: Order)
    requires Uniform(t, key, order)
    requires forall i :: 0 <= i < |s| ==> s[i] in t
    ensures Uniform(s, key, order)
  {
    if order == ByMemberId && |s| > 0 {
      var k :| 0 <= k < |t| && t[k] == s[0];
      if IsNumeric(key(t[k])) {
        forall i | 0 <= i < |s| ensures IsNumeric(key(s[i])) {
          var m :| 0 <= m < |t| && t[m] == s[i];
        }
      } else {
        forall i | 0 <= i < |s| ensures !IsNumeric(key(s[i])) {
          var m :| 0 <= m < |t| && t[m] == s[i];
        }
      }
    }
  }

  lemma InMultiset<T>(s: seq<T>, t: seq<T>, i: nat)
    requires multiset(s) == multiset(t) && i < |s|
    ensures exists j :: 0 <= j < |t| && t[j] == s[i]
  {
    assert s[i] in multiset(s);
    assert s[i] in multiset(t);
  }

  /** A permutation of a uniform sequence is uniform. */
  lemma UniformPermuted<T>(s: seq<T>, t: seq<T>, key: T -> string, order: Order)
    requires Uniform(t, key, order) && multiset(s) == multiset(t)
    ensures Uniform(s, key, order)
  {
    forall i | 0 <= i < |s| ensures s[i] in t {
      InMultiset(s, t, i);
    }
    UniformSub(s, t, key, order);
  }

  /** Strictly before, then not after, is strictly before. */
  lemma LessLeq(order: Order, a: string, b: string, c: string)
    requires Comparable(order, a, b, c)
    requires Less(order, a, b) && Leq(order, b, c)
    ensures Less(order, a, c)
  {
    CompareTransitive(order, a, b, c);
    CompareAntisymmetric(order, a, c);
    CompareAntisymmetric(order, a, b);
    if Compare(order, a, c) == 0 {
      assert Comparable(order, b, c, a);
      CompareTransitive(order, b, c, a);
    }
  }

  // ---------------------------------------------------------------------------
  // `List.sort`: the small-array path of Java's TimSort
  // ---------------------------------------------------------------------------

  /** The end of the non-descending run that `s[..k]` starts (`countRunAndMakeAscending`, else branch). */
  function AscendingRun<T>(s: seq<T>, key: T -> string, order: Order, k: nat): (n: nat)
    requires 1 <= k <= |s|
    ensures k <= n <= |s|
    ensures forall i :: k <= i < n ==> !Less(order, key(s[i]), key(s[i - 1]))
    ensures n < |s| ==> Less(order, key(s[n]), key(s[n - 1]))
    decreases |s| - k
  {
    if k < |s| && !Less(order, key(s[k]), key(s[k - 1])) then AscendingRun(s, key, order, k + 1) else k
  }

  /** The end of the strictly descending run that `s[..k]` starts. */
  function DescendingRun<T>(s: seq<T>, key: T -> string, order: Order, k: nat): (n: nat)
    requires 1 <= k <= |s|
    ensures k <= n <= |s|
    ensures forall i :: k <= i < n ==> Less(order, key(s[i]), key(s[i - 1]))
    ensures n < |s| ==> !Less(order, key(s[n]), key(s[n - 1]))
    decreases |s| - k
  {
    if k < |s| && Less(order, key(s[k]), key(s[k - 1])) then DescendingRun(s, key, order, k + 1) else k
  }

  /** Whether the leading run is strictly descending: the second element is before the first. */
  predicate StartsDescending<T>(s: seq<T>, key: T -> string, order: Order)
    requires |s| >= 2
  {
    Less(order, key(s[1]), key(s[0]))
  }

  /** The length of the leading run. */
  function RunLength<T>(s: seq<T>, key: T -> string, order: Order): (n: nat)
    requires |s| >= 2
    ensures 2 <= n <= |s|
  {
    if StartsDescending(s, key, order) then DescendingRun(s, key, order, 2) else AscendingRun(s, key, order, 2)
  }

  function Reverse<T>(s: seq<T>): (r: seq<T>)
    ensures |r| == |s|
    ensures forall i :: 0 <= i < |s| ==> r[i] == s[|s| - 1 - i]
    ensures multiset(r) == multiset(s)
  {
    if s == [] then []
    else
      var r := Reverse(s[1..]) + [s[0]];
      assert s == [s[0]] + s[1..];
      r
  }

  /** The list once its leading run is made ascending: a strictly descending run is reversed. */
  function MadeAscending<T>(s: seq<T>, key: T -> string, order: Order): (r: seq<T>)
    requires |s| >= 2
    ensures multiset(r) == multiset(s) && |r| == |s|
  {
    var n := RunLength(s, key, order);
    if StartsDescending(s, key, order) then
      var r := Reverse(s[..n]) + s[n..];
      assert s == s[..n] + s[n..];
      r
    else s
  }

  /** The binary search of `binarySort` for the pivot `s[start]` in `s[left..right]`: the pivot
      goes after every element it is not strictly before. */
  function InsertionPoint<T>(s: seq<T>, start: nat, key: T -> string, order: Order, left: nat, right: nat): (p: nat)
    requires left <= right <= start < |s|
    ensures left <= p <= right
    decreases right - left
  {
    if left < right then
      var mid := (left + right) / 2;
      if Less(order, key(s[start]), key(s[mid])) then InsertionPoint(s, start, key, order, left, mid)
      else InsertionPoint(s, start, key, order, mid + 1, right)
    else left
  }

  /** `s[start]` moved to position `p`, the elements `s[p..start]` shifted up by one. */
  function MovedTo<T>(s: seq<T>, start: nat, p: nat): (r: seq<T>)
    requires p <= start < |s|
    ensures multiset(r) == multiset(s) && |r| == |s|
    ensures r[..p] == s[..p] && r[p] == s[start] && r[p + 1..start + 1] == s[p..start]
    ensures r[start + 1..] == s[start + 1..]
  {
    var r := s[..p] + [s[start]] + s[p..start] + s[start + 1..];
    assert s == s[..p] + s[p..start] + [s[start]] + s[start + 1..];
    r
  }

  /** `binarySort(a, 0, n, start)`: each later element inserted into the sorted prefix in turn. */
  function BinarySort<T>(s: seq<T>, key: T -> string, order: Order, start: nat): (r: seq<T>)
    requires start <= |s|
    ensures multiset(r) == multiset(s) && |r| == |s|
    decreases |s| - start
  {
    if start == |s| then s
    else BinarySort(MovedTo(s, start, InsertionPoint(s, start, key, order, 0, start)), key, order, start + 1)
  }

  /** `list.sort(comparator)` on fewer than 32 elements: `TimSort.sort` returns a list of fewer
      than two as it is, and otherwise makes the leading run ascending and binary-inserts the rest. */
  function SortBy<T>(s: seq<T>, key: T -> string, order: Order): (r: seq<T>)
    ensures multiset(r) == multiset(s)
    ensures |r| == |s|
  {
    if |s| < 2 then s
    else BinarySort(MadeAscending(s, key, order), key, order, RunLength(s, key, order))
  }

  /** Neighbours in order make a sorted sequence, when the keys are ordered consistently. */
  lemma {:induction false} ChainSorted<T>(s: seq<T>, key: T -> string, order: Order)
    requires Uniform(s, key, order)
    requires forall i :: 1 <= i < |s| ==> Leq(order, key(s[i - 1]), key(s[i]))
    ensures Sorted(s, key, order)
  {
    if |s| > 1 {
      var front := s[..|s| - 1];
      UniformSub(front, s, key, order);
      ChainSorted(front, key, order);
      var last := |s| - 1;
      forall i | 0 <= i < last ensures Leq(order, key(s[i]), key(s[last])) {
        if i < last - 1 {
          assert front[i] == s[i] && front[last - 1] == s[last - 1];
          CompareTransitive(order, key(s[i]), key(s[last - 1]), key(s[last]));
        }
      }
    }
  }

  /** A strictly descending run, reversed, has its neighbours in order. */
  lemma ReversedRunChained<T>(s: seq<T>, key: T -> string, order: Order, n: nat)
    requires 1 <= n <= |s|
    requires forall i :: 1 <= i < n ==> Less(order, key(s[i]), key(s[i - 1]))
    ensures forall i :: 1 <= i < n ==> Leq(order, key(Reverse(s[..n])[i - 1]), key(Reverse(s[..n])[i]))
  {
    var run := Reverse(s[..n]);
    forall i | 1 <= i < n ensures Leq(order, key(run[i - 1]), key(run[i])) {
      assert run[i - 1] == s[n - i] && run[i] == s[n - 1 - i];
    }
  }

  /** After `countRunAndMakeAscending` the leading run is sorted. */
  lemma MadeAscendingSorted<T>(s: seq<T>, key: T -> string, order: Order)
    requires |s| >= 2 && Uniform(s, key, order)
    ensures Sorted(MadeAscending(s, key, order)[..RunLength(s, key, order)], key, order)
  {
    var n := RunLength(s, key, order);
    var a := MadeAscending(s, key, order);
    var run := a[..n];
    UniformPermuted(a, s, key, order);
    UniformSub(run, a, key, order);
    if StartsDescending(s, key, order) {
      assert run == Reverse(s[..n]);
      ReversedRunChained(s, key, order, n);
    } else {
      assert run == s[..n];
      forall i | 1 <= i < n ensures Leq(order, key(run[i - 1]), key(run[i])) {
        CompareAntisymmetric(order, key(s[i]), key(s[i - 1]));
      }
    }
    ChainSorted(run, key, order);
  }

  /** The binary search splits the sorted prefix into the elements the pivot is not strictly before
      and those it is strictly before. */
  lemma {:induction false} InsertionPointSplits<T>(s: seq<T>, start: nat, key: T -> string, order: Order, left: nat, right: nat)
    requires left <= right <= start < |s|
    requires Uniform(s, key, order) && Sorted(s[..start], key, order)
    requires forall i :: 0 <= i < left ==> !Less(order, key(s[start]), key(s[i]))
    requires forall i :: right <= i < start ==> Less(order, key(s[start]), key(s[i]))
    ensures var p := InsertionPoint(s, start, key, order, left, right);
      && (forall i :: 0 <= i < p ==> !Less(order, key(s[start]), key(s[i])))
      && (forall i :: p <= i < start ==> Less(order, key(s[start]), key(s[i])))
    decreases right - left
  {
    if left < right {
      var mid := (left + right) / 2;
      var x := key(s[start]);
      if Less(order, x, key(s[mid])) {
        assert InsertionPoint(s, start, key, order, left, right) == InsertionPoint(s, start, key, order, left, mid);
        BeforeFromMid(s, start, key, order, mid, right);
        assert forall i :: mid <= i < start ==> Less(order, x, key(s[i]));
        InsertionPointSplits(s, start, key, order, left, mid);
      } else {
        assert InsertionPoint(s, start, key, order, left, right) == InsertionPoint(s, start, key, order, mid + 1, right);
        NotBeforeUpToMid(s, start, key, order, left, mid);
        assert forall i :: 0 <= i < mid + 1 ==> !Less(order, x, key(s[i]));
        InsertionPointSplits(s, start, key, order, mid + 1, right);
      }
    }
  }

  /** A pivot strictly before the middle element is strictly before everything after it. */
  lemma BeforeFromMid<T>(s: seq<T>, start: nat, key: T -> string, order: Order, mid: nat, right: nat)
    requires mid < right <= start < |s|
    requires Uniform(s, key, order) && Sorted(s[..start], key, order)
    requires Less(order, key(s[start]), key(s[mid]))
    ensures forall i :: mid <= i < right ==> Less(order, key(s[start]), key(s[i]))
  {
    var x := key(s[start]);
    forall i | mid <= i < right ensures Less(order, x, key(s[i])) {
      if i > mid {
        assert s[..start][mid] == s[mid] && s[..start][i] == s[i];
        LessLeq(order, x, key(s[mid]), key(s[i]));
      }
    }
  }

  /** A pivot not strictly before the middle element is not strictly before anything up to it. */
  lemma NotBeforeUpToMid<T>(s: seq<T>, start: nat, key: T -> string, order: Order, left: nat, mid: nat)
    requires left <= mid < start < |s|
    requires Uniform(s, key, order) && Sorted(s[..start], key, order)
    requires !Less(order, key(s[start]), key(s[mid]))
    ensures forall i :: left <= i <= mid ==> !Less(order, key(s[start]), key(s[i]))
  {
    var x := key(s[start]);
    forall i | left <= i <= mid ensures !Less(order, x, key(s[i])) {
      if i < mid && Less(order, x, key(s[i])) {
        assert s[..start][i] == s[i] && s[..start][mid] == s[mid];
        LessLeq(order, x, key(s[i]), key(s[mid]));
      }
    }
  }

  /** Where an element of the moved sequence came from. */
  function MovedFrom(i: nat, p: nat, start: nat): nat {
    if i < p then i else if i == p then start else i - 1
  }

  lemma MovedToAt<T>(s: seq<T>, start: nat, p: nat, i: nat)
    requires p <= start < |s| && i <= start
    ensures MovedTo(s, start, p)[i] == s[MovedFrom(i, p, start)]
  {
    var r := MovedTo(s, start, p);
    if i < p {
      assert r[..p][i] == r[i];
    } else if i > p {
      assert r[p + 1..start + 1][i - p - 1] == r[i];
    }
  }

  /** One step of `binarySort` lengthens the sorted prefix by one. */
  lemma InsertionExtendsSorted<T>(s: seq<T>, start: nat, key: T -> string, order: Order)
    requires start < |s| && Uniform(s, key, order) && Sorted(s[..start], key, order)
    ensures Sorted(MovedTo(s, start, InsertionPoint(s, start, key, order, 0, start))[..start + 1], key, order)
  {
    var p := InsertionPoint(s, start, key, order, 0, start);
    InsertionPointSplits(s, start, key, order, 0, start);
    var r := MovedTo(s, start, p);
    var prefix := r[..start + 1];
    forall i, j | 0 <= i < j < start + 1 ensures Leq(order, key(prefix[i]), key(prefix[j])) {
      var si, sj := MovedFrom(i, p, start), MovedFrom(j, p, start);
      MovedToAt(s, start, p, i);
      MovedToAt(s, start, p, j);
      if i == p {
        assert Less(order, key(s[start]), key(s[sj]));
      } else if j == p {
        assert !Less(order, key(s[start]), key(s[si]));
        CompareAntisymmetric(order, key(s[start]), key(s[si]));
      } else {
        assert si < sj < start;
        assert s[..start][si] == s[si] && s[..start][sj] == s[sj];
      }
    }
  }

  lemma {:induction false} BinarySortSorted<T>(s: seq<T>, key: T -> string, order: Order, start: nat)
    requires start <= |s| && Uniform(s, key, order) && Sorted(s[..start], key, order)
    ensures Sorted(BinarySort(s, key, order, start), key, order)
    decreases |s| - start
  {
    if start == |s| {
      assert s[..start] == s;
    } else {
      var r := MovedTo(s, start, InsertionPoint(s, start, key, order, 0, start));
      InsertionExtendsSorted(s, start, key, order);
      UniformPermuted(r, s, key, order);
      BinarySortSorted(r, key, order, start + 1);
    }
  }

  /** Sorting yields the keys in non-decreasing order whenever the comparator is consistent on them. */
  lemma SortBySorted<T>(s: seq<T>, key: T -> string, order: Order)
    requires Uniform(s, key, order)
    ensures Sorted(SortBy(s, key, order), key, order)
  {
    if |s| >= 2 {
      MadeAscendingSorted(s, key, order);
      UniformPermuted(MadeAscending(s, key, order), s, key, order);
      BinarySortSorted(MadeAscending(s, key, order), key, order, RunLength(s, key, order));
    }
  }

  /** On mixed ids the sort keeps `["10", "1a", "2"]` as it is: "1a" is not before "10" and "2" is
      not before "1a", so the whole list is one ascending run, although "2" is before "10". */
  lemma MixedIdsKeptAsOneRun()
    ensures SortBy(["10", "1a", "2"], (id: string) => id, ByMemberId) == ["10", "1a", "2"]
  {
    var s := ["10", "1a", "2"];
    var key := (id: string) => id;
    MixedIdsCycle();
    CompareAntisymmetric(ByMemberId, "10", "1a");
    CompareAntisymmetric(ByMemberId, "1a", "2");
    assert !StartsDescending(s, key, ByMemberId);
    assert AscendingRun(s, key, ByMemberId, 2) == 3;
    assert RunLength(s, key, ByMemberId) == 3;
  }
}
