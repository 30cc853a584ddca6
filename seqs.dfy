/** Sequence operations with the semantics of the JavaScript array methods the code uses. */
module Seqs {

  /** The elements of `s` that satisfy `keep`, in order: `Array.prototype.filter`. */
  function Filter<T>(s: seq<T>, keep: T -> bool): (r: seq<T>)
    ensures |r| <= |s|
    ensures forall x :: x in r ==> x in s && keep(x)
    ensures forall x :: x in s && keep(x) ==> x in r
  {
    if s == [] then []
    else (if keep(s[0]) then [s[0]] else []) + Filter(s[1..], keep)
  }

  lemma {:induction false} FilterAppend<T>(a: seq<T>, b: seq<T>, keep: T -> bool)
    ensures Filter(a + b, keep) == Filter(a, keep) + Filter(b, keep)
  {
    if a == [] {
      assert a + b == b;
    } else {
      assert (a + b)[1..] == a[1..] + b;
      FilterAppend(a[1..], b, keep);
    }
  }

  /** Filtering twice with the same predicate is filtering once. */
  lemma {:induction false} FilterIdempotent<T>(s: seq<T>, keep: T -> bool)
    ensures Filter(Filter(s, keep), keep) == Filter(s, keep)
  {
    if s != [] {
      FilterIdempotent(s[1..], keep);
      var head := if keep(s[0]) then [s[0]] else [];
      FilterAppend(head, Filter(s[1..], keep), keep);
      assert Filter(head, keep) == head by {
        if keep(s[0]) {
          assert head[1..] == [];
        }
      }
    }
  }

  /** Filtering first with a weaker predicate does not change what a stronger one keeps. */
  lemma {:induction false} FilterOfFilter<T>(s: seq<T>, keep: T -> bool, p: T -> bool)
    requires forall x :: p(x) ==> keep(x)
    ensures Filter(Filter(s, keep), p) == Filter(s, p)
  {
    if s != [] {
      FilterOfFilter(s[1..], keep, p);
      var head := if keep(s[0]) then [s[0]] else [];
      FilterAppend(head, Filter(s[1..], keep), p);
      assert Filter(head, p) == (if p(s[0]) then [s[0]] else []) by {
        if keep(s[0]) {
          assert head[1..] == [];
        }
      }
    }
  }

  /** A filter that keeps everything is the identity. */
  lemma {:induction false} FilterAll<T>(s: seq<T>, keep: T -> bool)
    requires forall x :: x in s ==> keep(x)
    ensures Filter(s, keep) == s
  {
    if s != [] {
      FilterAll(s[1..], keep);
    }
  }

  /** Two predicates that agree on the elements give the same filter. */
  lemma {:induction false} FilterCongruent<T>(s: seq<T>, p: T -> bool, q: T -> bool)
    requires forall x :: x in s ==> p(x) == q(x)
    ensures Filter(s, p) == Filter(s, q)
  {
    if s != [] {
      FilterCongruent(s[1..], p, q);
    }
  }

  /** `xs` is an order-preserving subsequence of `ys`. */
  predicate Subsequence<T(==)>(xs: seq<T>, ys: seq<T>)
    decreases |ys|
  {
    xs == [] || (ys != [] && (if xs[0] == ys[0] then Subsequence(xs[1..], ys[1..]) else Subsequence(xs, ys[1..])))
  }

  /** A filter keeps the kept elements in their original order. */
  lemma {:induction false} FilterIsSubsequence<T>(s: seq<T>, keep: T -> bool)
    ensures Subsequence(Filter(s, keep), s)
  {
    if s != [] {
      FilterIsSubsequence(s[1..], keep);
      var rest := Filter(s[1..], keep);
      if keep(s[0]) {
        assert Filter(s, keep) == [s[0]] + rest;
        assert ([s[0]] + rest)[1..] == rest;
      } else {
        assert Filter(s, keep) == rest;
        SubsequenceOfTail(rest, s);
      }
    }
  }

  lemma {:induction false} SubsequenceOfTail<T>(xs: seq<T>, ys: seq<T>)
    requires ys != [] && Subsequence(xs, ys[1..])
    ensures Subsequence(xs, ys)
    decreases |xs| + |ys|
  {
    if xs != [] && xs[0] == ys[0] {
      SubsequenceDropHead(xs, ys[1..]);
    }
  }

  lemma {:induction false} SubsequenceDropHead<T>(xs: seq<T>, ys: seq<T>)
    requires xs != [] && Subsequence(xs, ys)
    ensures Subsequence(xs[1..], ys)
    decreases |xs| + |ys|
  {
    if xs[0] == ys[0] {
      if xs[1..] != [] {
        SubsequenceDropHead(xs[1..], ys[1..]);
        SubsequenceOfTail(xs[1..], ys);
      }
    } else {
      SubsequenceDropHead(xs, ys[1..]);
      if xs[1..] != [] {
        SubsequenceOfTail(xs[1..], ys);
      }
    }
  }

  /** The last `n` elements of `s`, or all of them when there are fewer. */
  function Newest<T>(s: seq<T>, n: nat): (r: seq<T>)
    ensures |r| <= n && |r| <= |s|
    ensures r == s[|s| - |r|..]
    ensures |r| == |s| || |r| == n
  {
    if |s| <= n then s else s[|s| - n..]
  }

  /** Pushing onto the newest `n` and dropping the oldest when over `n` keeps the newest `n`. */
  lemma {:induction false} NewestAppend<T>(s: seq<T>, x: T, n: nat)
    ensures var kept := Newest(s, n) + [x];
      (if |kept| > n then kept[1..] else kept) == Newest(s + [x], n)
  {
    var kept := Newest(s, n);
    if |s| + 1 > n && n > 0 {
      assert (kept + [x])[1..] == (s + [x])[|s| + 1 - n..];
    } else if n == 0 {
      assert |kept| == 0;
    }
  }

  /** `f` applied to each element: `Array.prototype.map`. */
  function Map<T, U>(s: seq<T>, f: T -> U): (r: seq<U>)
    ensures |r| == |s|
    ensures forall i :: 0 <= i < |s| ==> r[i] == f(s[i])
  {
    if s == [] then [] else [f(s[0])] + Map(s[1..], f)
  }

  /**
   * Mapping with `f` and filtering with `keep` leaves the `other` elements alone when `f` fixes
   * them, `keep` keeps them, and `f` never turns an element into one of them.
   */
  lemma {:induction false} FilterMapLeavesOthers<T>(s: seq<T>, f: T -> T, keep: T -> bool, other: T -> bool)
    requires forall x :: other(x) ==> f(x) == x && keep(x)
    requires forall x :: !other(x) ==> !other(f(x))
    ensures Filter(Filter(Map(s, f), keep), other) == Filter(s, other)
  {
    if s != [] {
      FilterMapLeavesOthers(s[1..], f, keep, other);
      var m := Map(s, f);
      assert m == [f(s[0])] + Map(s[1..], f);
      FilterAppend([f(s[0])], Map(s[1..], f), keep);
      var head := Filter([f(s[0])], keep);
      FilterAppend(head, Filter(Map(s[1..], f), keep), other);
      assert Filter(head, other) == (if other(s[0]) then [s[0]] else []) by {
        if other(s[0]) {
          assert head == [s[0]];
          assert head[1..] == [];
        } else if keep(f(s[0])) {
          assert head == [f(s[0])];
          assert head[1..] == [];
        }
      }
    }
  }

  /** Filtering by `p` and then by `q` keeps what satisfies both. */
  lemma {:induction false} FilterBoth<T>(s: seq<T>, p: T -> bool, q: T -> bool, both: T -> bool)
    requires forall x :: both(x) == (p(x) && q(x))
    ensures Filter(Filter(s, p), q) == Filter(s, both)
  {
    if s != [] {
      FilterBoth(s[1..], p, q, both);
      var head := if p(s[0]) then [s[0]] else [];
      FilterAppend(head, Filter(s[1..], p), q);
      assert Filter(head, q) == (if p(s[0]) && q(s[0]) then [s[0]] else []) by {
        if p(s[0]) {
          assert head[1..] == [];
        }
      }
    }
  }

  /** A filter that keeps nothing of `s` is empty. */
  lemma {:induction false} FilterNone<T>(s: seq<T>, keep: T -> bool)
    requires forall x :: x in s ==> !keep(x)
    ensures Filter(s, keep) == []
  {
    if s != [] {
      FilterNone(s[1..], keep);
    }
  }

  lemma {:induction false} FilterSingle<T>(x: T, keep: T -> bool)
    ensures Filter([x], keep) == if keep(x) then [x] else []
  {
    assert [x][1..] == [];
  }

  lemma {:induction false} MapSingle<T, U>(x: T, f: T -> U)
    ensures Map([x], f) == [f(x)]
  {
    assert [x][1..] == [];
  }

  lemma {:induction false} MapAppend<T, U>(a: seq<T>, b: seq<T>, f: T -> U)
    ensures Map(a + b, f) == Map(a, f) + Map(b, f)
  {
  }

  /** A non-empty sequence is its front followed by its last element. */
  lemma {:induction false} InitLast<T>(s: seq<T>)
    requires |s| > 0
    ensures s == s[..|s| - 1] + [s[|s| - 1]]
  {
  }

  /** Appending a non-empty sequence is appending its front, then its last element. */
  lemma {:induction false} AppendInitLast<T>(a: seq<T>, s: seq<T>)
    requires |s| > 0
    ensures a + s[..|s| - 1] + [s[|s| - 1]] == a + s
  {
    InitLast(s);
  }

  /** The first `n + 1` elements are the first `n` followed by element `n`. */
  lemma {:induction false} TakeOneMore<T>(s: seq<T>, n: nat)
    requires n < |s|
    ensures s[..n + 1] == s[..n] + [s[n]]
  {
  }

  /** Filtering one element more of `s`. */
  lemma {:induction false} FilterTakeOneMore<T>(s: seq<T>, n: nat, keep: T -> bool)
    requires n < |s|
    ensures Filter(s[..n + 1], keep) == Filter(s[..n], keep) + (if keep(s[n]) then [s[n]] else [])
  {
    TakeOneMore(s, n);
    FilterAppend(s[..n], [s[n]], keep);
    assert [s[n]][1..] == [];
  }

  /** A prefix of a prefix is a prefix. */
  lemma {:induction false} TakeTake<T>(s: seq<T>, n: nat, m: nat)
    requires m <= n <= |s|
    ensures s[..n][..m] == s[..m]
  {
  }

  lemma {:induction false} TakeAll<T>(s: seq<T>)
    ensures s[..|s|] == s
  {
  }

  /** The elements of the pieces laid end to end. */
  function Flatten<T>(parts: seq<seq<T>>): seq<T> {
    if parts == [] then [] else Flatten(parts[..|parts| - 1]) + parts[|parts| - 1]
  }

  /** One more piece of a prefix of the pieces. */
  lemma {:induction false} FlattenStep<T>(parts: seq<seq<T>>, k: nat)
    requires k < |parts|
    ensures Flatten(parts[..k + 1]) == Flatten(parts[..k]) + parts[k]
  {
    assert parts[..k + 1][..k] == parts[..k];
  }

  /** A piece pushed at the end. */
  lemma {:induction false} FlattenPush<T>(parts: seq<seq<T>>, x: seq<T>)
    ensures Flatten(parts + [x]) == Flatten(parts) + x
  {
    assert (parts + [x])[..|parts|] == parts;
  }

  /** The pieces of a prefix take no more room than all the pieces. */
  lemma {:induction false} FlattenPrefixLength<T>(parts: seq<seq<T>>, k: nat)
    requires k <= |parts|
    ensures |Flatten(parts[..k])| <= |Flatten(parts)|
    decreases |parts| - k
  {
    if k < |parts| {
      FlattenStep(parts, k);
      FlattenPrefixLength(parts, k + 1);
    } else {
      assert parts[..k] == parts;
    }
  }

  /** Cutting a sequence at `i` and the rest again at `j - i` gives three pieces that make it up. */
  lemma {:induction false} ThreePieces<T>(s: seq<T>, i: nat, j: nat)
    requires i <= j <= |s|
    ensures s[..i] + s[i..][..j - i] + s[i..][j - i..] == s
  {
    assert s[i..] == s[i..][..j - i] + s[i..][j - i..];
  }

  /** A piece of a concatenation sits right after what precedes it. */
  lemma {:induction false} SliceOf<T>(x: seq<T>, y: seq<T>, rest: seq<T>)
    ensures |x| + |y| <= |x + y + rest| && (x + y + rest)[|x|..|x| + |y|] == y
  {
  }

  /** The last piece of a concatenation is what follows the pieces before it. */
  lemma {:induction false} LastPiece<T>(x: seq<T>, y: seq<T>)
    ensures (x + y)[|x|..|x| + |y|] == y
  {
  }

  /** A slice within the first piece of a concatenation is a slice of that piece. */
  lemma {:induction false} SliceOfFront<T>(l: seq<T>, m: seq<T>, e: seq<T>, i: nat, j: nat)
    requires i <= j <= |l|
    ensures (l + m + e)[i..j] == l[i..j]
  {
  }

  /** An element the filter drops can be left out before filtering. */
  lemma {:induction false} FilterDropsMiddle<T>(a: seq<T>, x: T, b: seq<T>, keep: T -> bool)
    requires !keep(x)
    ensures Filter(a + [x] + b, keep) == Filter(a + b, keep)
  {
    if a == [] {
      assert a + [x] + b == [x] + b && a + b == b;
      assert ([x] + b)[1..] == b;
    } else {
      assert (a + [x] + b)[1..] == a[1..] + [x] + b;
      assert (a + b)[1..] == a[1..] + b;
      FilterDropsMiddle(a[1..], x, b, keep);
    }
  }

  /** `h` occurs in `s` at position `q`. */
  ghost predicate Placed<T>(s: seq<T>, q: nat, h: seq<T>) {
    q + |h| <= |s| && s[q..q + |h|] == h
  }

  /** A piece placed within the middle of a concatenation is placed there in the whole. */
  lemma {:induction false} SliceOfMiddle<T>(l: seq<T>, m: seq<T>, e: seq<T>, o: nat, i: nat, h: seq<T>)
    requires o == |l| && Placed(m, i, h)
    ensures Placed(l + m + e, o + i, h)
  {
    assert (l + m + e)[|l|..|l| + |m|] == m;
  }

  /** The pieces at the end of a prefix sit at the same places in the whole sequence. */
  lemma {:induction false} PrefixPieces<T>(s: seq<T>, x: seq<T>, h: seq<T>, c: seq<T>, p: nat)
    requires x + h + c <= s && p == |x|
    ensures p + |h| + |c| <= |s|
    ensures s[p..p + |h|] == h && s[p + |h|..p + |h| + |c|] == c
  {
    var pre := x + h + c;
    assert s[..|pre|] == pre;
    assert s[p..p + |h|] == pre[p..p + |h|];
    assert s[p + |h|..p + |h| + |c|] == pre[p + |h|..p + |h| + |c|];
  }

  /** The pieces at the end of a prefix of the front part sit at the same places in the whole sequence. */
  lemma {:induction false} FrontPieces<T>(l: seq<T>, m: seq<T>, e: seq<T>, x: seq<T>, h: seq<T>, c: seq<T>, p: nat)
    requires x + h + c <= l && p == |x|
    ensures p + |h| + |c| <= |l + m + e|
    ensures (l + m + e)[p..p + |h|] == h && (l + m + e)[p + |h|..p + |h| + |c|] == c
  {
    PrefixPieces(l, x, h, c, p);
    SliceOfFront(l, m, e, p, p + |h|);
    SliceOfFront(l, m, e, p + |h|, p + |h| + |c|);
  }

  lemma {:induction false} PrefixOfAppend<T>(a: seq<T>, b: seq<T>, c: seq<T>)
    ensures a <= a + b + c
  {
  }

  lemma {:induction false} PrefixOfConcat<T>(a: seq<T>, b: seq<T>)
    ensures a <= a + b
  {
  }

  lemma {:induction false} PrefixTransitive<T>(a: seq<T>, b: seq<T>, c: seq<T>)
    requires a <= b && b <= c
    ensures a <= c
  {
  }

  /** The piece at the end of a prefix sits at the same place in the whole sequence. */
  lemma {:induction false} PrefixPiece<T>(s: seq<T>, x: seq<T>, h: seq<T>, p: nat)
    requires x + h <= s && p == |x|
    ensures p + |h| <= |s| && s[p..p + |h|] == h
  {
    var pre := x + h;
    assert s[..|pre|] == pre;
    assert s[p..p + |h|] == pre[p..p + |h|];
  }

  /** A slice of a piece found at offset `q` is found at the same offset in the whole. */
  lemma {:induction false} SubSlice<T>(s: seq<T>, q: nat, h: seq<T>, i: nat, n: nat, f: seq<T>)
    requires q + |h| <= |s| && s[q..q + |h|] == h && i + n <= |h| && h[i..i + n] == f
    ensures s[q + i..q + i + n] == f
  {
    assert forall k :: q + i <= k < q + i + n ==> s[k] == h[k - q];
  }

  /** The start of a piece found at offset `q`. */
  lemma {:induction false} SubSliceStart<T>(s: seq<T>, q: nat, h: seq<T>, n: nat, f: seq<T>)
    requires q + |h| <= |s| && s[q..q + |h|] == h && n <= |h| && h[..n] == f
    ensures s[q..q + n] == f
  {
    assert forall k :: q <= k < q + n ==> s[k] == h[k - q];
  }
}
