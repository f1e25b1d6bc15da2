/**
 Facts about sequences that the proofs use by name, and what it means for a
 piece of a file to stand at a position.
 */
module Sequences {

  lemma Associate<T>(a: seq<T>, b: seq<T>, c: seq<T>)
    ensures (a + b) + c == a + (b + c)
  {
  }

  lemma ThreeParts<T>(a: seq<T>, b: seq<T>, c: seq<T>)
    ensures var s := a + b + c;
            && s[0..|a|] == a && s[..|a|] == a
            && s[|a|..|a| + |b|] == b
            && s[|a| + |b|..|a| + |b| + |c|] == c
  {
  }

  function SumOf(v: seq<real>): real {
    if v == [] then 0.0 else SumOf(v[..|v| - 1]) + v[|v| - 1]
  }

  predicate IsSorted(s: seq<real>) {
    forall i, j :: 0 <= i < j < |s| ==> s[i] <= s[j]
  }

  function Flatten<T>(chunks: seq<seq<T>>): seq<T> {
    if chunks == [] then [] else chunks[0] + Flatten(chunks[1..])
  }

  lemma FlattenSingle<T>(chunk: seq<T>)
    ensures Flatten([chunk]) == chunk
  {
  }

  lemma {:induction false} FlattenConcat<T>(a: seq<seq<T>>, b: seq<seq<T>>)
    ensures Flatten(a + b) == Flatten(a) + Flatten(b)
  {
    if a == [] {
      assert a + b == b;
    } else {
      FlattenConcat(a[1..], b);
      assert (a + b)[1..] == a[1..] + b;
      Associate(a[0], Flatten(a[1..]), Flatten(b));
    }
  }

  lemma {:induction false} FlattenLength<T>(chunks: seq<seq<T>>, each: nat)
    requires forall i :: 0 <= i < |chunks| ==> |chunks[i]| == each
    ensures |Flatten(chunks)| == |chunks| * each
  {
    if chunks != [] {
      FlattenLength(chunks[1..], each);
    }
  }

  ghost predicate Holds<T>(b: seq<T>, at: nat, s: seq<T>) {
    at + |s| <= |b| && b[at..at + |s|] == s
  }

  lemma HoldsAfter<T>(a: seq<T>, s: seq<T>, c: seq<T>)
    ensures Holds(a + s + c, |a|, s)
  {
  }

  lemma HoldsParts<T>(b: seq<T>, at: nat, s: seq<T>, t: seq<T>)
    requires Holds(b, at, s + t)
    ensures Holds(b, at, s) && Holds(b, at + |s|, t)
  {
    var whole := b[at..at + |s + t|];
    assert whole == s + t;
    assert b[at..at + |s|] == whole[..|s|];
    assert b[at + |s|..at + |s| + |t|] == whole[|s|..];
  }

  lemma SliceOfSlice<T>(b: seq<T>, lo: nat, hi: nat, i: nat, j: nat)
    requires lo <= hi <= |b| && i <= j <= hi - lo
    ensures b[lo..hi][i..j] == b[lo + i..lo + j]
  {
    var inner, outer := b[lo..hi][i..j], b[lo + i..lo + j];
    assert |inner| == |outer|;
    forall k | 0 <= k < |inner| ensures inner[k] == outer[k] {
      assert inner[k] == b[lo..hi][i + k];
    }
  }

  /** A slice of something held is found in the holder. */
  lemma HeldSlice<T>(b: seq<T>, at: nat, s: seq<T>, i: nat, j: nat)
    requires Holds(b, at, s) && i <= j <= |s|
    ensures b[at + i..at + j] == s[i..j]
  {
    SliceOfSlice(b, at, at + |s|, i, j);
  }

  lemma PrefixSlice<T>(b: seq<T>, n: nat, i: nat, j: nat)
    requires i <= j <= n <= |b|
    ensures b[..n][i..j] == b[i..j]
  {
  }

  /** Once a condition holds of a position it holds of all later ones. */
  ghost predicate StaysTrue(n: nat, after: nat --> bool)
    requires forall i :: 0 <= i < n ==> after.requires(i)
  {
    forall i, j :: 0 <= i <= j < n && after(i) ==> after(j)
  }

  /** The binary search of std::upper_bound: where `after` begins to hold among the first n positions. */
  method PartitionPoint(n: nat, after: nat --> bool) returns (k: nat)
    requires forall i :: 0 <= i < n ==> after.requires(i)
    ensures k <= n
    ensures StaysTrue(n, after) ==> forall i :: 0 <= i < n ==> (after(i) <==> k <= i)
  {
    var first: nat, length: nat := 0, n;
    while length > 0
      invariant first + length <= n
      invariant StaysTrue(n, after) ==> forall i :: 0 <= i < first ==> !after(i)
      invariant StaysTrue(n, after) ==> forall i :: first + length <= i < n ==> after(i)
    {
      var half := length / 2;
      if after(first + half) {
        length := half;
      } else {
        first, length := first + half + 1, length - half - 1;
      }
    }
    k := first;
  }
}
