/** Folds over integer sequences that several day programs end with:
    `iter().sum()`, `iter().product()`, `iter().min()` and `iter().max()`. */
module Seqs {

  /** The elements of `s` in the opposite order: `rev()` on an iterator,
      and `chars().rev().collect::<String>()` on a string. */
  function Reverse<T>(s: seq<T>): (r: seq<T>)
    ensures |r| == |s|
  {
    seq(|s|, i requires 0 <= i < |s| => s[|s| - 1 - i])
  }

  function Sum(s: seq<int>): int {
    if |s| == 0 then 0 else s[0] + Sum(s[1..])
  }

  function Product(s: seq<int>): int {
    if |s| == 0 then 1 else s[0] * Product(s[1..])
  }

  lemma {:induction false} SumAppend(a: seq<int>, b: seq<int>)
    ensures Sum(a + b) == Sum(a) + Sum(b)
  {
    if |a| > 0 {
      assert (a + b)[0] == a[0];
      assert (a + b)[1..] == a[1..] + b;
      SumAppend(a[1..], b);
    } else {
      assert a + b == b;
    }
  }

  lemma {:induction false} SumNonNegative(s: seq<int>)
    requires forall i :: 0 <= i < |s| ==> s[i] >= 0
    ensures Sum(s) >= 0
  {
    if |s| > 0 {
      SumNonNegative(s[1..]);
    }
  }

  /** `iter().min().unwrap()` on a non-empty sequence. */
  function Min(s: seq<int>): (m: int)
    requires |s| > 0
    ensures m in s
    ensures forall i :: 0 <= i < |s| ==> m <= s[i]
  {
    if |s| == 1 then s[0]
    else
      var rest := Min(s[1..]);
      assert forall i :: 1 <= i < |s| ==> s[i] == s[1..][i - 1];
      if s[0] <= rest then s[0] else rest
  }

  /** `iter().max().unwrap()` on a non-empty sequence. */
  function Max(s: seq<int>): (m: int)
    requires |s| > 0
    ensures m in s
    ensures forall i :: 0 <= i < |s| ==> s[i] <= m
  {
    if |s| == 1 then s[0]
    else
      var rest := Max(s[1..]);
      assert forall i :: 1 <= i < |s| ==> s[i] == s[1..][i - 1];
      if s[0] >= rest then s[0] else rest
  }

  /** Number of entries of `s` equal to `x`, i.e. `filter(|c| c == x).count()`. */
  function CountOf(s: seq<int>, x: int): (n: nat)
    ensures n <= |s|
    ensures n == 0 <==> x !in s
  {
    if |s| == 0 then 0 else (if s[0] == x then 1 else 0) + CountOf(s[1..], x)
  }
  lemma {:induction false} CountOfAppend(a: seq<int>, b: seq<int>, x: int)
    ensures CountOf(a + b, x) == CountOf(a, x) + CountOf(b, x)
  {
    if |a| > 0 {
      assert (a + b)[1..] == a[1..] + b;
      CountOfAppend(a[1..], b, x);
    } else {
      assert a + b == b;
    }
  }

  /** `CountOf` is the multiplicity in the multiset of the entries. */
  lemma {:induction false} CountOfMultiset(s: seq<int>, x: int)
    ensures CountOf(s, x) == multiset(s)[x]
  {
    if |s| > 0 {
      assert s == [s[0]] + s[1..];
      CountOfMultiset(s[1..], x);
    }
  }

  /** The maximum of a sequence depends only on which values occur in it. */
  lemma MaxOfSameElements(a: seq<int>, b: seq<int>)
    requires |a| > 0 && forall x :: x in a <==> x in b
    ensures |b| > 0 && Max(a) == Max(b)
  {
    assert Max(a) in b;
    assert Max(b) in a;
  }

  /** The number of occurrences of `x` after one entry is overwritten. */
  lemma {:induction false} CountOfUpdate(s: seq<int>, i: nat, v: int, x: int)
    requires i < |s|
    ensures CountOf(s[i := v], x) == CountOf(s, x) - (if s[i] == x then 1 else 0) + (if v == x then 1 else 0)
  {
    if i > 0 {
      assert s[i := v][1..] == s[1..][i - 1 := v];
      CountOfUpdate(s[1..], i - 1, v, x);
    }
  }

  /** The sum after one entry is overwritten. */
  lemma SumUpdate(s: seq<int>, i: nat, v: int)
    requires i < |s|
    ensures Sum(s[i := v]) == Sum(s) - s[i] + v
  {
    SumRemoveAt(s, i);
    SumRemoveAt(s[i := v], i);
    assert s[i := v][..i] + s[i := v][i + 1..] == s[..i] + s[i + 1..];
  }

  /** No entry of a sequence of non-negative numbers exceeds its sum. */
  lemma {:induction false} EntryAtMostSum(s: seq<int>, i: nat)
    requires forall k :: 0 <= k < |s| ==> s[k] >= 0
    requires i < |s|
    ensures s[i] <= Sum(s)
  {
    SumNonNegative(s[1..]);
    if i > 0 {
      EntryAtMostSum(s[1..], i - 1);
    }
  }

  /** Taking out the entry at `i` takes one copy of it out of the multiset. */
  lemma MultisetRemoveAt<T>(b: seq<T>, i: nat)
    requires i < |b|
    ensures multiset(b[..i] + b[i + 1..]) == multiset(b) - multiset{b[i]}
  {
    assert b == b[..i] + [b[i]] + b[i + 1..];
  }

  lemma SumCons(x: int, s: seq<int>)
    ensures Sum([x] + s) == x + Sum(s)
  {
    assert ([x] + s)[1..] == s;
  }

  lemma SumRemoveAt(b: seq<int>, i: nat)
    requires i < |b|
    ensures Sum(b) == b[i] + Sum(b[..i] + b[i + 1..])
  {
    SumAround(b, i);
    SumAppend(b[..i], b[i + 1..]);
  }

  /** The sum before, at and after position `i`. */
  lemma SumAround(b: seq<int>, i: nat)
    requires i < |b|
    ensures Sum(b) == Sum(b[..i]) + b[i] + Sum(b[i + 1..])
  {
    var pre, post := b[..i], b[i + 1..];
    assert b == pre + ([b[i]] + post);
    SumAppend(pre, [b[i]] + post);
    SumCons(b[i], post);
  }

  /** The sum of a sequence depends only on its multiset of entries. */
  lemma {:induction false} SumOfPermutation(a: seq<int>, b: seq<int>)
    requires multiset(a) == multiset(b)
    ensures Sum(a) == Sum(b)
    decreases |a|
  {
    if |a| == 0 {
      assert |b| == |multiset(b)| == 0;
    } else {
      assert a[0] in multiset(b);
      var i :| 0 <= i < |b| && b[i] == a[0];
      assert a == [a[0]] + a[1..];
      MultisetRemoveAt(b, i);
      SumRemoveAt(b, i);
      SumOfPermutation(a[1..], b[..i] + b[i + 1..]);
    }
  }
  /** `iter().map(f)`. */
  function Image<T>(f: T -> int, s: seq<T>): (r: seq<int>)
    ensures |r| == |s| && forall k :: 0 <= k < |s| ==> r[k] == f(s[k])
  {
    if |s| == 0 then [] else [f(s[0])] + Image(f, s[1..])
  }

  lemma ImageAppend<T>(f: T -> int, a: seq<T>, b: seq<T>)
    ensures Image(f, a + b) == Image(f, a) + Image(f, b)
  {
    assert |Image(f, a + b)| == |Image(f, a) + Image(f, b)|;
    forall k | 0 <= k < |a + b|
      ensures Image(f, a + b)[k] == (Image(f, a) + Image(f, b))[k]
    {
      if k >= |a| {
        assert (a + b)[k] == b[k - |a|];
      }
    }
  }

  /** `iter().map(f).sum()` does not depend on the order of the items, so a
      sum over a `HashMap` is the same for every iteration order. */
  lemma {:induction false} SumOfImagePermuted<T>(f: T -> int, a: seq<T>, b: seq<T>)
    requires multiset(a) == multiset(b)
    ensures Sum(Image(f, a)) == Sum(Image(f, b))
    decreases |a|
  {
    if |a| == 0 {
      assert |b| == |multiset(b)| == 0;
    } else {
      assert a[0] in multiset(b);
      var i :| 0 <= i < |b| && b[i] == a[0];
      assert a == [a[0]] + a[1..];
      MultisetRemoveAt(b, i);
      var rest := b[..i] + b[i + 1..];
      SumOfImagePermuted(f, a[1..], rest);
      ImageRemoveAt(f, b, i);
      SumRemoveAt(Image(f, b), i);
    }
  }

  /** Taking out the item at `i` takes its image out of the image. */
  lemma ImageRemoveAt<T>(f: T -> int, b: seq<T>, i: nat)
    requires i < |b|
    ensures Image(f, b[..i] + b[i + 1..]) == Image(f, b)[..i] + Image(f, b)[i + 1..]
  {
    var rest, fb := b[..i] + b[i + 1..], Image(f, b);
    var lhs, rhs := Image(f, rest), fb[..i] + fb[i + 1..];
    assert |lhs| == |rhs|;
    forall k | 0 <= k < |lhs|
      ensures lhs[k] == rhs[k]
    {
      if k < i {
        assert rest[k] == b[k];
      } else {
        assert rest[k] == b[k + 1];
      }
    }
  }
}
