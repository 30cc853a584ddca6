/**
 * Removing marked positions from an array the way the server code does it: the positions are
 * collected in ascending order during a scan, then spliced out one at a time from the highest
 * down, so that each removal leaves the positions still to be removed where they were.
 */
module Splices {
  import opened Seqs

  /** The elements of `s` from position `lo` on whose positions are not marked, in order. */
  function Without<T>(s: seq<T>, marked: set<int>, lo: nat): (r: seq<T>)
    requires lo <= |s|
    decreases |s| - lo
  {
    if lo == |s| then [] else (if lo in marked then [] else [s[lo]]) + Without(s, marked, lo + 1)
  }

  /** A stretch with no marked position is kept whole. */
  lemma {:induction false} WithoutUnmarkedRun<T>(s: seq<T>, marked: set<int>, lo: nat, hi: nat)
    requires lo <= hi <= |s|
    requires forall k :: lo <= k < hi ==> k !in marked
    ensures Without(s, marked, lo) == s[lo..hi] + Without(s, marked, hi)
    decreases hi - lo
  {
    if lo < hi {
      WithoutUnmarkedRun(s, marked, lo + 1, hi);
      WithoutUnmarkedHead(s, marked, lo);
      ConsSlice(s, lo, hi, Without(s, marked, hi));
    } else {
      assert s[lo..hi] == [];
    }
  }

  lemma {:induction false} WithoutUnmarkedHead<T>(s: seq<T>, marked: set<int>, lo: nat)
    requires lo < |s| && lo !in marked
    ensures Without(s, marked, lo) == [s[lo]] + Without(s, marked, lo + 1)
  {
  }

  lemma {:induction false} ConsSlice<T>(s: seq<T>, lo: nat, hi: nat, rest: seq<T>)
    requires lo < hi <= |s|
    ensures [s[lo]] + (s[lo + 1..hi] + rest) == s[lo..hi] + rest
  {
    assert [s[lo]] + s[lo + 1..hi] == s[lo..hi];
  }

  /** No mark lies strictly between two consecutive marks of an ascending list. */
  lemma {:induction false} NoMarkBetween(marks: seq<int>, j: nat, b: int)
    requires StrictlyAscending(marks) && 0 < j <= |marks|
    requires j < |marks| ==> b == marks[j]
    ensures forall k :: marks[j - 1] < k < b ==> k !in marks[..j] && (j == |marks| || k !in marks)
  {
    var p := marks[j - 1];
    forall k | p < k < b
      ensures k !in marks[..j] && (j == |marks| || k !in marks)
    {
      forall i | 0 <= i < |marks|
        ensures i < j || j < |marks| ==> marks[i] != k
      {
        if i < j - 1 {
          assert marks[i] < p;
        } else if i >= j {
          assert marks[i] >= b;
        }
      }
    }
  }

  predicate StrictlyAscending(xs: seq<int>) {
    forall i, j :: 0 <= i < j < |xs| ==> xs[i] < xs[j]
  }

  /** One `splice(p, 1)` at the highest marked position still present. */
  lemma {:induction false} SpliceStep<T>(s: seq<T>, marked: set<int>, p: nat, b: nat, r: seq<T>)
    requires p < b <= |s| && p in marked
    requires forall k :: p < k < b ==> k !in marked
    requires r == s[..b] + Without(s, marked, b)
    ensures r[..p] + r[p + 1..] == s[..p] + Without(s, marked, p)
  {
    var wb := Without(s, marked, b);
    WithoutUnmarkedRun(s, marked, p + 1, b);
    assert Without(s, marked, p) == Without(s, marked, p + 1);
    assert s[..b] == s[..p] + [s[p]] + s[p + 1..b];
    DropMiddle(s[..p], s[p], s[p + 1..b], wb);
  }

  lemma {:induction false} DropMiddle<T>(x: seq<T>, e: T, y: seq<T>, z: seq<T>)
    ensures var r := x + [e] + y + z; r[..|x|] + r[|x| + 1..] == x + (y + z)
  {
    var r := x + [e] + y + z;
    assert r[..|x|] == x;
    assert r[|x| + 1..] == y + z;
  }

  /**
   * Splicing out the marked positions from the highest down leaves exactly the unmarked
   * elements, in order.
   */
  method RemoveMarked<T>(s: seq<T>, marks: seq<int>, ghost marked: set<int>) returns (r: seq<T>)
    requires StrictlyAscending(marks)
    requires forall i :: 0 <= i < |marks| ==> 0 <= marks[i] < |s|
    requires forall k :: k in marked <==> k in marks
    ensures r == Without(s, marked, 0)
  {
    r := s;
    var j := |marks|;
    ghost var b := |s|;
    while j > 0
      invariant 0 <= j <= |marks| && b <= |s|
      invariant b == if j == |marks| then |s| else marks[j]
      invariant forall k :: b <= k < |s| && k in marked ==> k in marks[j..]
      invariant forall i :: 0 <= i < j ==> marks[i] < b
      invariant r == s[..b] + Without(s, marked, b)
    {
      var p := marks[j - 1];
      NoMarkBetween(marks, j, b);
      assert forall k :: p < k < b ==> k !in marked;
      SpliceStep(s, marked, p, b, r);
      r := r[..p] + r[p + 1..];
      j := j - 1;
      b := p;
    }
    assert forall k :: 0 <= k < b ==> k !in marked by {
      forall k | 0 <= k < b
        ensures k !in marks
      {
        assert forall i :: 0 <= i < |marks| ==> marks[i] >= b;
      }
    }
    WithoutUnmarkedRun(s, marked, 0, b);
  }

  /** Removing the positions whose element fails `keep` is filtering with `keep`. */
  lemma {:induction false} WithoutIsFilter<T>(s: seq<T>, marked: set<int>, keep: T -> bool, lo: nat)
    requires lo <= |s|
    requires forall k :: lo <= k < |s| ==> (k in marked <==> !keep(s[k]))
    ensures Without(s, marked, lo) == Filter(s[lo..], keep)
    decreases |s| - lo
  {
    if lo < |s| {
      WithoutIsFilter(s, marked, keep, lo + 1);
      assert s[lo..][1..] == s[lo + 1..];
    }
  }
}
