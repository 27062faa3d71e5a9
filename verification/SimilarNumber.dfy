/** The two lookups of BetAlgorithm.cc: the largest index whose value does not exceed a given one. */
module SimilarNumber {

  predicate Sorted(s: seq<int>) {
    forall i, j :: 0 <= i < j < |s| ==> s[i] <= s[j]
  }

  predicate StrictlyIncreasing(s: seq<int>) {
    forall i, j :: 0 <= i < j < |s| ==> s[i] < s[j]
  }

  /** `k` is the largest index with a value of at most `val`, or 0 if there is none. */
  ghost predicate IsSimilar(s: seq<int>, val: int, k: int) {
    && 0 <= k < |s|
    && (k == 0 || s[k] <= val)
    && forall i :: k < i < |s| ==> s[i] > val
  }

  /// The binary search

  function Midpoint(left: int, right: int): (m: int)
    requires 0 <= left <= right
    ensures left <= m <= right && (m == right ==> left == right)
  {
    (left + right) / 2
  }

  /** The answer of the loop from the given bounds, when the last probe was `mid`. */
  function Search(s: seq<int>, val: int, left: int, right: int, mid: int): int
    requires 0 <= left && right < |s|
    decreases right - left + 1
  {
    if left > right then mid
    else
      var m := Midpoint(left, right);
      if m == |s| - 1 || (s[m] <= val && s[m + 1] > val) then m
      else if s[m] < val then Search(s, val, m + 1, right, m)
      else Search(s, val, left, m - 1, m)
  }

  /** The first probe that meets the value itself, if there is one. */
  function FirstHit(s: seq<int>, val: int, left: int, right: int): (k: int)
    requires 0 <= left && right < |s|
    ensures k == -1 || (left <= k <= right && s[k] == val)
    decreases right - left + 1
  {
    if left > right then -1
    else
      var m := Midpoint(left, right);
      if s[m] == val then m
      else if s[m] < val then FirstHit(s, val, m + 1, right)
      else FirstHit(s, val, left, m - 1)
  }

  /** A hit that is followed by another occurrence sends the search to the wrong side. */
  predicate Misled(s: seq<int>, val: int) {
    var k := FirstHit(s, val, 0, |s| - 1);
    0 <= k < |s| - 1 && s[k + 1] == val
  }

  lemma {:induction false} SearchStaysLow(s: seq<int>, val: int, left: int, right: int, mid: int, bound: int)
    requires 0 <= left && right < |s| && mid <= bound && right <= bound
    ensures Search(s, val, left, right, mid) <= bound
    decreases right - left + 1
  {
    if left <= right {
      var m := Midpoint(left, right);
      if m != |s| - 1 && !(s[m] <= val && s[m + 1] > val) {
        if s[m] < val { SearchStaysLow(s, val, m + 1, right, m, bound); }
        else { SearchStaysLow(s, val, left, m - 1, m, bound); }
      }
    }
  }

  /** Bounds outside of which the value does not occur, with the last probe. */
  ghost predicate Bracketed(s: seq<int>, val: int, left: int, right: int, mid: int) {
    && Sorted(s) && 0 <= left <= right + 1 <= |s| && left < |s| && 0 <= mid < |s|
    && (forall i :: 0 <= i < left ==> s[i] < val)
    && (forall i :: right < i < |s| ==> s[i] > val)
    && (left == 0 || s[left] <= val)
    && (left > right ==> mid == left == 0)
  }

  lemma BracketHalves(s: seq<int>, val: int, left: int, right: int, mid: int, m: int)
    requires Bracketed(s, val, left, right, mid) && left <= m <= right && m < |s| - 1
    ensures s[m] < val && s[m + 1] <= val ==> Bracketed(s, val, m + 1, right, m)
    ensures s[m] > val ==> Bracketed(s, val, left, m - 1, m)
    ensures s[m] <= val && s[m + 1] > val ==> IsSimilar(s, val, m)
    ensures s[m + 1] <= val ==> forall r :: r <= m ==> !IsSimilar(s, val, r)
    ensures s[m + 1] > val ==> forall k :: m < k < |s| ==> s[k] != val
    ensures s[m] <= s[m + 1]
  {
  }

  lemma BracketEnds(s: seq<int>, val: int, left: int, right: int, mid: int)
    requires Bracketed(s, val, left, right, mid)
    ensures 0 <= left <= right + 1 <= |s| && left < |s|
    ensures left > right ==> IsSimilar(s, val, mid)
    ensures left == right == |s| - 1 ==> IsSimilar(s, val, left)
  {
  }

  /** The search from any such bounds is right unless the first hit is followed by another occurrence. */
  lemma {:induction false} SearchFrom(s: seq<int>, val: int, left: int, right: int, mid: int)
    requires Bracketed(s, val, left, right, mid) && 0 <= left && right < |s|
    ensures
      var k := FirstHit(s, val, left, right);
      IsSimilar(s, val, Search(s, val, left, right, mid)) <==> !(0 <= k < |s| - 1 && s[k + 1] == val)
    decreases right - left + 1
  {
    hide Bracketed, IsSimilar, Sorted, Midpoint;
    BracketEnds(s, val, left, right, mid);
    if left <= right {
      var m := Midpoint(left, right);
      if m < |s| - 1 {
        BracketHalves(s, val, left, right, mid, m);
        if s[m] < val && s[m + 1] <= val {
          SearchFrom(s, val, m + 1, right, m);
        } else if s[m] == val == s[m + 1] {
          SearchStaysLow(s, val, left, m - 1, m, m);
        } else if s[m] > val {
          SearchFrom(s, val, left, m - 1, m);
        }
      }
    }
  }

  /** On every sorted array the binary search gives the largest fitting index if and only if it is not
      misled, in particular whenever the value occurs at most once. */
  lemma SearchCorrectIff(s: seq<int>, val: int)
    requires s != [] && Sorted(s)
    ensures IsSimilar(s, val, Search(s, val, 0, |s| - 1, 0)) <==> !Misled(s, val)
    ensures StrictlyIncreasing(s) ==> !Misled(s, val)
  {
    SearchFrom(s, val, 0, |s| - 1, 0);
    var k := FirstHit(s, val, 0, |s| - 1);
    assert StrictlyIncreasing(s) && 0 <= k < |s| - 1 ==> s[k] < s[k + 1];
  }

  /** The loop ends within the array; on sorted arrays with the largest fitting index exactly if it is not
      misled. */
  method BinarySearch(s: seq<int>, val: int) returns (r: int)
    ensures r == Search(s, val, 0, |s| - 1, 0)
    ensures s == [] ==> r == 0
    ensures s != [] ==> 0 <= r < |s|
    ensures s != [] && Sorted(s) ==> (IsSimilar(s, val, r) <==> !Misled(s, val))
  {
    hide Misled, Sorted, IsSimilar;
    assert s != [] && Sorted(s) ==> (IsSimilar(s, val, Search(s, val, 0, |s| - 1, 0)) <==> !Misled(s, val)) by {
      if s != [] && Sorted(s) {
        SearchCorrectIff(s, val);
      }
    }
    var maxIndex := |s| - 1;
    var left, right, mid := 0, maxIndex, 0;
    while left <= right
      invariant 0 <= left && right < |s|
      invariant s == [] ==> mid == 0
      invariant s != [] ==> 0 <= mid < |s|
      invariant Search(s, val, left, right, mid) == Search(s, val, 0, |s| - 1, 0)
      decreases right - left + 1
    {
      mid := Midpoint(left, right);
      if mid == maxIndex {
        return mid;
      }
      if s[mid] <= val && s[mid + 1] > val {
        return mid;
      } else if s[mid] < val {
        left := mid + 1;
      } else {
        right := mid - 1;
      }
    }
    return mid;
  }

  /** A repeated value can be missed by more than the repetition. */
  lemma RepeatedValueIsMissed()
    ensures
      var s := [1, 2, 2];
      Search(s, 2, 0, 2, 0) == 0 && IsSimilar(s, 2, 2)
  {
    var s := [1, 2, 2];
    assert Midpoint(0, 2) == 1 && Midpoint(0, 0) == 0;
    assert Search(s, 2, 0, 2, 0) == Search(s, 2, 0, 0, 1);
    assert Search(s, 2, 0, 0, 1) == Search(s, 2, 1, 0, 0);
  }

  /// The linear search

  /** The first index where the values step over `val`, or the last index; 0 for small values. On sorted
      arrays it is right exactly when the smallest value is not asked for and repeated. */
  method LinearSearch(s: seq<int>, val: int) returns (r: int)
    requires s != []
    ensures 0 <= r < |s|
    ensures val <= s[0] ==> r == 0
    ensures val > s[0] ==> r == |s| - 1 || s[r] <= val < s[r + 1]
    ensures val > s[0] ==> forall i :: 0 <= i < r ==> !(s[i] <= val < s[i + 1])
    ensures Sorted(s) ==> (IsSimilar(s, val, r) <==> !(|s| > 1 && s[0] == val == s[1]))
  {
    var maxIndex := |s| - 1;
    if val <= s[0] {
      return 0;
    }
    r := 0;
    while r < maxIndex
      invariant 0 <= r <= maxIndex
      invariant s[r] <= val
      invariant forall i :: 0 <= i < r ==> !(s[i] <= val < s[i + 1])
    {
      if s[r] <= val && s[r + 1] > val {
        break;
      }
      r := r + 1;
    }
  }

  /** On strictly increasing arrays the fast search is the slow one. */
  method SearchesAgree(s: seq<int>, val: int) returns (fast: int, slow: int)
    requires s != [] && StrictlyIncreasing(s)
    ensures fast == slow && IsSimilar(s, val, fast)
  {
    fast := BinarySearch(s, val);
    slow := LinearSearch(s, val);
    SearchCorrectIff(s, val);
  }
}
