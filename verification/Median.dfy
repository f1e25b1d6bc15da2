/**
 The median as the engine takes it: std::nth_element puts the middle element in its
 place and leaves the rest in any order around it. Statements quantify over every
 arrangement that order permits ([alg.nth.element] of the C++ standard).
 */
module Median {
  import opened Sequences

  /** `after` is what nth_element may have made of `before`. */
  ghost predicate Arranged(before: seq<real>, after: seq<real>, mid: nat) {
    && multiset(after) == multiset(before)
    && mid < |after|
    && (forall i :: 0 <= i < mid ==> after[i] <= after[mid])
    && forall i :: mid <= i < |after| ==> after[mid] <= after[i]
  }

  /** The value computed from an arranged sequence. */
  function MedianOf(after: seq<real>): real
    requires after != []
  {
    var mid := |after| / 2;
    if |after| % 2 == 1 then after[mid] else (after[mid - 1] + after[mid]) * 0.5
  }

  // ---- counting ----------------------------------------------------------------------

  function CountBelow(s: seq<real>, x: real): nat {
    if s == [] then 0 else CountBelow(s[..|s| - 1], x) + if s[|s| - 1] < x then 1 else 0
  }

  function CountUpTo(s: seq<real>, x: real): nat {
    if s == [] then 0 else CountUpTo(s[..|s| - 1], x) + if s[|s| - 1] <= x then 1 else 0
  }

  lemma {:induction false} CountsConcat(a: seq<real>, b: seq<real>, x: real)
    ensures CountBelow(a + b, x) == CountBelow(a, x) + CountBelow(b, x)
    ensures CountUpTo(a + b, x) == CountUpTo(a, x) + CountUpTo(b, x)
  {
    if b == [] {
      assert a + b == a;
    } else {
      CountsConcat(a, b[..|b| - 1], x);
      assert (a + b)[..|a + b| - 1] == a + b[..|b| - 1];
    }
  }

  lemma CountsWithout(t: seq<real>, j: nat, x: real)
    requires j < |t|
    ensures var rest := t[..j] + t[j + 1..];
            && multiset(t) == multiset(rest) + multiset{t[j]}
            && CountBelow(t, x) == CountBelow(rest, x) + (if t[j] < x then 1 else 0)
            && CountUpTo(t, x) == CountUpTo(rest, x) + (if t[j] <= x then 1 else 0)
  {
    var one := [t[j]];
    assert t == t[..j] + one + t[j + 1..];
    CountsConcat(t[..j], t[j + 1..], x);
    CountsConcat(t[..j] + one, t[j + 1..], x);
    CountsConcat(t[..j], one, x);
    assert one[..0] == [];
  }

  lemma CancelOne(a: multiset<real>, b: multiset<real>, x: real)
    requires a + multiset{x} == b + multiset{x}
    ensures a == b
  {
    assert a == (a + multiset{x}) - multiset{x};
    assert b == (b + multiset{x}) - multiset{x};
  }

  /** Counting does not depend on the order. */
  lemma {:induction false} CountsOfPermutation(s: seq<real>, t: seq<real>, x: real)
    requires multiset(s) == multiset(t)
    ensures CountBelow(s, x) == CountBelow(t, x) && CountUpTo(s, x) == CountUpTo(t, x)
    decreases |s|
  {
    if s == [] {
      assert |multiset(t)| == 0;
    } else {
      var front, last := s[..|s| - 1], s[|s| - 1];
      assert last in multiset(t);
      var j :| 0 <= j < |t| && t[j] == last;
      var rest := t[..j] + t[j + 1..];
      CountsWithout(t, j, x);
      assert s == front + [last];
      CancelOne(multiset(front), multiset(rest), last);
      CountsOfPermutation(front, rest, x);
    }
  }

  lemma {:induction false} CountBounds(s: seq<real>, x: real)
    ensures CountBelow(s, x) <= CountUpTo(s, x) <= |s|
    ensures (forall i :: 0 <= i < |s| ==> s[i] <= x) ==> CountUpTo(s, x) == |s|
    ensures (forall i :: 0 <= i < |s| ==> x <= s[i]) ==> CountBelow(s, x) == 0
    ensures (exists i :: 0 <= i < |s| && s[i] == x) ==> CountBelow(s, x) < CountUpTo(s, x)
  {
    if s != [] {
      CountBounds(s[..|s| - 1], x);
    }
  }

  lemma {:induction false} CountsGrow(s: seq<real>, x: real, y: real)
    requires x < y
    ensures CountUpTo(s, x) <= CountBelow(s, y)
  {
    if s != [] {
      CountsGrow(s[..|s| - 1], x, y);
    }
  }

  /** x is the element of rank k: the one at position k when s is sorted. */
  ghost predicate HasRank(s: seq<real>, k: nat, x: real) {
    CountBelow(s, x) <= k < CountUpTo(s, x)
  }

  lemma RankIsUnique(s: seq<real>, k: nat, x: real, y: real)
    requires HasRank(s, k, x) && HasRank(s, k, y)
    ensures x == y
  {
    if x < y {
      CountsGrow(s, x, y);
    } else if y < x {
      CountsGrow(s, y, x);
    }
  }

  /** Whatever the arrangement, the element put in place is the one of its rank. */
  lemma ArrangedRank(before: seq<real>, after: seq<real>, mid: nat)
    requires Arranged(before, after, mid)
    ensures HasRank(before, mid, after[mid])
  {
    var x := after[mid];
    var left, right := after[..mid], after[mid + 1..];
    assert after == left + [x] + right;
    CountsOfPermutation(before, after, x);
    CountsConcat(left + [x], right, x);
    CountsConcat(left, [x], x);
    assert [x][..0] == [];
    CountBounds(left, x);
    CountBounds(right, x);
  }

  // ---- odd counts ------------------------------------------------------------------------

  /** With an odd number of values the result is the median, whatever the arrangement. */
  lemma OddIsMedian(before: seq<real>, after: seq<real>)
    requires Arranged(before, after, |before| / 2) && |before| % 2 == 1
    ensures HasRank(before, |before| / 2, MedianOf(after))
  {
    SameLength(before, after);
    ArrangedRank(before, after, |before| / 2);
  }

  lemma SameLength(before: seq<real>, after: seq<real>)
    requires multiset(before) == multiset(after)
    ensures |before| == |after|
  {
    assert |multiset(before)| == |multiset(after)|;
  }

  // ---- robustness --------------------------------------------------------------------------

  function CountWithin(s: seq<real>, a: real, b: real): nat {
    if s == [] then 0 else CountWithin(s[..|s| - 1], a, b) + if a <= s[|s| - 1] <= b then 1 else 0
  }

  lemma {:induction false} WithinCounts(s: seq<real>, a: real, b: real)
    requires a <= b
    ensures CountWithin(s, a, b) + CountBelow(s, a) == CountUpTo(s, b)
  {
    if s != [] {
      WithinCounts(s[..|s| - 1], a, b);
    }
  }

  /** The upper median lies in every interval that holds more than half of the values. */
  lemma UpperMedianIsRobust(s: seq<real>, x: real, a: real, b: real)
    requires HasRank(s, |s| / 2, x) && a <= b && 2 * CountWithin(s, a, b) > |s|
    ensures a <= x <= b
  {
    WithinCounts(s, a, b);
    CountBounds(s, a);
    CountBounds(s, b);
    if x < a {
      CountsGrow(s, x, a);
    } else if b < x {
      CountsGrow(s, b, x);
    }
  }

  // ---- even counts ----------------------------------------------------------------------------

  ghost predicate IsLeast(s: seq<real>, m: real) {
    m in s && forall i :: 0 <= i < |s| ==> m <= s[i]
  }

  /** With an even number of values the result is between two bounds that do not depend on the arrangement. */
  lemma EvenRange(before: seq<real>, after: seq<real>, least: real, upper: real)
    requires before != [] && Arranged(before, after, |before| / 2) && |before| % 2 == 0
    requires IsLeast(before, least) && HasRank(before, |before| / 2, upper)
    ensures (least + upper) * 0.5 <= MedianOf(after) <= upper
  {
    SameLength(before, after);
    var mid := |before| / 2;
    ArrangedRank(before, after, mid);
    RankIsUnique(before, mid, after[mid], upper);
    LeastOfPermutation(before, after, least, mid - 1);
  }

  lemma LeastOfPermutation(before: seq<real>, after: seq<real>, least: real, i: nat)
    requires multiset(before) == multiset(after) && IsLeast(before, least) && i < |after|
    ensures least <= after[i]
  {
    assert after[i] in multiset(after);
    assert after[i] in before;
  }

  lemma SwapKeepsArranged(before: seq<real>, t: seq<real>, mid: nat, j: nat)
    requires Arranged(before, t, mid) && j < mid
    ensures Arranged(before, t[j := t[mid - 1]][mid - 1 := t[j]], mid)
  {
  }

  /** Some permitted arrangement puts the least value right before the middle. */
  lemma LeastCanStandBeforeMiddle(before: seq<real>, least: real, mid: nat) returns (after: seq<real>)
    requires 0 < mid < |before| && IsLeast(before, least)
    ensures Arranged(before, after, mid) && after[mid - 1] == least
  {
    var t := SortedCopy(before);
    SortedIsArranged(before, t, mid);
    assert least in multiset(t);
    var j :| 0 <= j < |t| && t[j] == least;
    if j < mid {
      after := t[j := t[mid - 1]][mid - 1 := least];
      SwapKeepsArranged(before, t, mid, j);
    } else {
      LeastOfPermutation(before, t, least, mid);
      LeastOfPermutation(before, t, least, mid - 1);
      after := t;
    }
  }

  /**
   When an interval holds more than half of an even number of values, the result
   stays in it for every permitted arrangement if and only if the mean of the least
   value and the upper median does. A single low outlier can fail that.
   */
  lemma EvenIsRobustIff(before: seq<real>, least: real, upper: real, a: real, b: real)
    requires before != [] && |before| % 2 == 0
    requires IsLeast(before, least) && HasRank(before, |before| / 2, upper)
    requires a <= b && 2 * CountWithin(before, a, b) > |before|
    ensures (forall after :: Arranged(before, after, |before| / 2) ==> a <= MedianOf(after) <= b)
            <==> a <= (least + upper) * 0.5
  {
    var mid := |before| / 2;
    UpperMedianIsRobust(before, upper, a, b);
    forall after | Arranged(before, after, mid)
      ensures (least + upper) * 0.5 <= MedianOf(after) <= upper
    {
      EvenRange(before, after, least, upper);
    }
    var after := LeastCanStandBeforeMiddle(before, least, mid);
    SameLength(before, after);
    ArrangedRank(before, after, mid);
    RankIsUnique(before, mid, after[mid], upper);
    assert MedianOf(after) == (least + upper) * 0.5;
  }

  /** With an odd number of values the result stays in the interval unconditionally. */
  lemma OddIsRobust(before: seq<real>, after: seq<real>, a: real, b: real)
    requires Arranged(before, after, |before| / 2) && |before| % 2 == 1
    requires a <= b && 2 * CountWithin(before, a, b) > |before|
    ensures a <= MedianOf(after) <= b
  {
    OddIsMedian(before, after);
    UpperMedianIsRobust(before, MedianOf(after), a, b);
  }

  /** Three gaps of 1000 and one glitch of 1: the period can come out near one half. */
  lemma OneGlitchHalvesThePeriod()
    ensures var gaps, after := [1.0, 1000.0, 1000.0, 1000.0], [1000.0, 1.0, 1000.0, 1000.0];
            Arranged(gaps, after, |gaps| / 2) && MedianOf(after) == 500.5
  {
  }

  // ---- a stand-in for the library routine ---------------------------------------------------------

  function InsertSorted(s: seq<real>, x: real): (t: seq<real>)
    requires IsSorted(s)
    ensures IsSorted(t) && multiset(t) == multiset(s) + multiset{x}
  {
    if s == [] || s[|s| - 1] <= x then s + [x]
    else
      var front, last := s[..|s| - 1], s[|s| - 1];
      var t := InsertSorted(front, x);
      assert s == front + [last];
      InsertedIsBelow(front, x, t, last);
      t + [last]
  }

  lemma InsertedIsBelow(front: seq<real>, x: real, t: seq<real>, last: real)
    requires multiset(t) == multiset(front) + multiset{x}
    requires x <= last && forall i :: 0 <= i < |front| ==> front[i] <= last
    ensures forall i :: 0 <= i < |t| ==> t[i] <= last
  {
    forall i | 0 <= i < |t| ensures t[i] <= last {
      assert t[i] in multiset(t);
      assert t[i] == x || t[i] in multiset(front);
    }
  }

  function SortedCopy(s: seq<real>): (t: seq<real>)
    ensures IsSorted(t) && multiset(t) == multiset(s)
  {
    if s == [] then []
    else
      assert s == s[..|s| - 1] + [s[|s| - 1]];
      InsertSorted(SortedCopy(s[..|s| - 1]), s[|s| - 1])
  }

  lemma SortedIsArranged(before: seq<real>, t: seq<real>, mid: nat)
    requires IsSorted(t) && multiset(t) == multiset(before) && mid < |before|
    ensures Arranged(before, t, mid)
  {
    SameLength(before, t);
  }

  /**
   Stands in for std::nth_element. Callers know its postcondition only, so nothing
   proved of them depends on this body.
   */
  method NthElement(a: array<real>, mid: nat)
    requires mid < a.Length
    modifies a
    ensures Arranged(old(a[..]), a[..], mid)
  {
    var t := SortedCopy(a[..]);
    SameLength(a[..], t);
    SortedIsArranged(a[..], t, mid);
    forall i | 0 <= i < a.Length {
      a[i] := t[i];
    }
    assert a[..] == t;
  }

  /** The median of some values, rearranging them in place. */
  method TakeMedian(values: array<real>) returns (m: real)
    requires values.Length > 0
    modifies values
    ensures Arranged(old(values[..]), values[..], values.Length / 2) && m == MedianOf(values[..])
  {
    var mid := values.Length / 2;
    NthElement(values, mid);
    m := if values.Length % 2 == 1 then values[mid] else (values[mid - 1] + values[mid]) * 0.5;
  }
}
