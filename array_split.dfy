/**
 * `Array.split()`: an array cut into two halves at `count / 2`, or kept whole
 * as a single slice when it has at most one element.
 *
 * A Swift `ArraySlice` shares the indices of the array it was cut from, so a
 * slice is modelled by its elements together with the index in the parent
 * array at which it starts.
 */
module ArraySplit {

  datatype ArraySlice<T> = ArraySlice(startIndex: nat, elements: seq<T>) {
    /** One past the parent index of the slice's last element. */
    function EndIndex(): nat {
      startIndex + |elements|
    }

    /** The slice is `a[startIndex ..< endIndex]` of the parent `a`. */
    ghost predicate SliceOf(a: seq<T>) {
      EndIndex() <= |a| && elements == a[startIndex..EndIndex()]
    }
  }

  /** The elements of the slices, one after the other. */
  function Joined<T>(slices: seq<ArraySlice<T>>): seq<T> {
    if slices == [] then [] else slices[0].elements + Joined(slices[1..])
  }

  /** `a[lo ..< hi]` as a slice of `a`. */
  function Slice<T>(a: seq<T>, lo: nat, hi: nat): (s: ArraySlice<T>)
    requires lo <= hi <= |a|
    ensures s.SliceOf(a) && s.startIndex == lo && s.EndIndex() == hi
  {
    ArraySlice(lo, a[lo..hi])
  }

  /**
   * `a.split()`. The slices are consecutive ranges of `a` that start at 0 and
   * end at `count`, so joining them gives `a` back; there is one slice when
   * `count <= 1` (an empty array gives one empty slice) and two otherwise, the
   * first of `count / 2` elements and the second of the rest.
   */
  function Split<T>(a: seq<T>): (r: seq<ArraySlice<T>>)
    ensures Joined(r) == a
    ensures |r| == (if |a| <= 1 then 1 else 2)
    ensures r[0].startIndex == 0 && r[|r| - 1].EndIndex() == |a|
    ensures forall k :: 0 <= k < |r| ==> r[k].SliceOf(a)
    ensures forall k :: 0 < k < |r| ==> r[k].startIndex == r[k - 1].EndIndex()
    ensures |r| == 2 ==> |r[0].elements| == |a| / 2 && |r[1].elements| == |a| - |a| / 2
  {
    if |a| <= 1 then
      var r := [Slice(a, 0, |a|)];
      assert Joined(r) == a + Joined(r[1..]);
      r
    else
      var splitIndex := |a| / 2;
      var r := [Slice(a, 0, splitIndex), Slice(a, splitIndex, |a|)];
      assert Joined(r[1..]) == a[splitIndex..] + Joined(r[2..]);
      assert a[..splitIndex] + a[splitIndex..] == a;
      r
  }

  /**
   * With two or more elements both halves are non-empty, and the second is
   * at least as long as the first and at most one element longer.
   */
  lemma SplitHalvesBalanced<T>(a: seq<T>)
    requires |a| >= 2
    ensures var r := Split(a);
      1 <= |r[0].elements| <= |r[1].elements| <= |r[0].elements| + 1
  {
  }
}
