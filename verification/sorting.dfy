/** `sort_unstable` on a slice, for an order given as a "less than or
    equal" test that is total and transitive, as Rust's `Ord` requires. */
module Sorting {

  ghost predicate Total<T(!new)>(le: (T, T) -> bool) {
    forall a, b :: le(a, b) || le(b, a)
  }

  ghost predicate Transitive<T(!new)>(le: (T, T) -> bool) {
    forall a, b, c :: le(a, b) && le(b, c) ==> le(a, c)
  }

  predicate Sorted<T(!new)>(le: (T, T) -> bool, s: seq<T>) {
    forall i, j :: 0 <= i < j < |s| ==> le(s[i], s[j])
  }

  /** Every element of `s` is at least `h`. */
  predicate AllAtLeast<T(!new)>(le: (T, T) -> bool, h: T, s: seq<T>) {
    forall k :: 0 <= k < |s| ==> le(h, s[k])
  }

  lemma SortedCons<T(!new)>(le: (T, T) -> bool, h: T, s: seq<T>)
    requires Sorted(le, s) && AllAtLeast(le, h, s)
    ensures Sorted(le, [h] + s)
  {
    var r := [h] + s;
    forall i, j | 0 <= i < j < |r|
      ensures le(r[i], r[j])
    {
      assert r[j] == s[j - 1];
      if i > 0 {
        assert r[i] == s[i - 1];
      }
    }
  }

  /** Inserting `h` in front of the first element it does not exceed. */
  function Insert<T(!new)>(le: (T, T) -> bool, h: T, s: seq<T>): (r: seq<T>)
    requires Total(le) && Transitive(le) && Sorted(le, s)
    ensures multiset(r) == multiset(s) + multiset{h}
    ensures Sorted(le, r)
  {
    if |s| == 0 then [h]
    else if le(h, s[0]) then
      assert AllAtLeast(le, h, s) by {
        forall k | 0 <= k < |s|
          ensures le(h, s[k])
        {
          if k > 0 {
            assert le(s[0], s[k]);
          }
        }
      }
      SortedCons(le, h, s);
      [h] + s
    else
      assert s == [s[0]] + s[1..];
      var rest := Insert(le, h, s[1..]);
      assert AllAtLeast(le, s[0], rest) by {
        forall k | 0 <= k < |rest|
          ensures le(s[0], rest[k])
        {
          assert rest[k] in multiset(rest);
          if rest[k] != h {
            assert rest[k] in multiset(s[1..]);
            var i :| 0 <= i < |s[1..]| && s[1..][i] == rest[k];
            assert s[i + 1] == rest[k];
          }
        }
      }
      SortedCons(le, s[0], rest);
      [s[0]] + rest
  }

  /** An insertion sort: a sorted permutation of its input. */
  function Sort<T(!new)>(le: (T, T) -> bool, s: seq<T>): (r: seq<T>)
    requires Total(le) && Transitive(le)
    ensures multiset(r) == multiset(s)
    ensures Sorted(le, r)
  {
    if |s| == 0 then []
    else
      assert s == [s[0]] + s[1..];
      Insert(le, s[0], Sort(le, s[1..]))
  }

  /** No two positions of `s` hold elements that are each `le` the other. */
  predicate NoTies<T(!new)>(le: (T, T) -> bool, s: seq<T>) {
    forall i, j :: 0 <= i < j < |s| ==> !(le(s[i], s[j]) && le(s[j], s[i]))
  }

  /** Without ties there is only one sorted arrangement, so the order in
      which an unstable sort leaves equal elements cannot matter. */
  lemma {:induction false} SortedArrangementUnique<T(!new)>(le: (T, T) -> bool, a: seq<T>, b: seq<T>)
    requires Sorted(le, a) && Sorted(le, b)
    requires multiset(a) == multiset(b)
    requires NoTies(le, a)
    ensures a == b
  {
    assert |a| == |multiset(a)| == |multiset(b)| == |b|;
    if |a| > 0 {
      assert b[0] in multiset(a) && a[0] in multiset(b);
      var i :| 0 <= i < |a| && a[i] == b[0];
      var j :| 0 <= j < |b| && b[j] == a[0];
      assert i == 0;
      SortedTail(le, a);
      SortedTail(le, b);
      NoTiesTail(le, a);
      MultisetTail(a, b);
      SortedArrangementUnique(le, a[1..], b[1..]);
      assert a == [a[0]] + a[1..] && b == [b[0]] + b[1..];
    }
  }

  lemma SortedTail<T(!new)>(le: (T, T) -> bool, a: seq<T>)
    requires |a| > 0 && Sorted(le, a)
    ensures Sorted(le, a[1..])
  {
    forall i, j | 0 <= i < j < |a| - 1
      ensures le(a[1..][i], a[1..][j])
    {
      assert a[1..][i] == a[i + 1] && a[1..][j] == a[j + 1];
    }
  }

  lemma NoTiesTail<T(!new)>(le: (T, T) -> bool, a: seq<T>)
    requires |a| > 0 && NoTies(le, a)
    ensures NoTies(le, a[1..])
  {
    forall i, j | 0 <= i < j < |a| - 1
      ensures !(le(a[1..][i], a[1..][j]) && le(a[1..][j], a[1..][i]))
    {
      assert a[1..][i] == a[i + 1] && a[1..][j] == a[j + 1];
    }
  }

  lemma MultisetTail<T>(a: seq<T>, b: seq<T>)
    requires |a| > 0 && |b| > 0 && a[0] == b[0] && multiset(a) == multiset(b)
    ensures multiset(a[1..]) == multiset(b[1..])
  {
    assert a == [a[0]] + a[1..] && b == [b[0]] + b[1..];
    calc {
      multiset(a[1..]);
      multiset(a) - multiset{a[0]};
      multiset(b) - multiset{b[0]};
      multiset(b[1..]);
    }
  }

  /** Each element strictly below the next one. */
  predicate StrictlyAscending<T(!new)>(le: (T, T) -> bool, s: seq<T>) {
    forall i :: 0 <= i < |s| - 1 ==> le(s[i], s[i + 1]) && !le(s[i + 1], s[i])
  }

  lemma {:induction false} StrictlyAscendingBelow<T(!new)>(le: (T, T) -> bool, s: seq<T>, i: nat, j: nat)
    requires Transitive(le) && StrictlyAscending(le, s)
    requires i < j < |s|
    ensures le(s[i], s[j]) && !le(s[j], s[i])
    decreases j - i
  {
    if i + 1 < j {
      StrictlyAscendingBelow(le, s, i + 1, j);
    }
  }

  /** A strictly ascending sequence is sorted and has no ties. */
  lemma StrictlyAscendingSorted<T(!new)>(le: (T, T) -> bool, s: seq<T>)
    requires Transitive(le) && StrictlyAscending(le, s)
    ensures Sorted(le, s) && NoTies(le, s)
  {
    forall i, j | 0 <= i < j < |s|
      ensures le(s[i], s[j]) && !le(s[j], s[i])
    {
      StrictlyAscendingBelow(le, s, i, j);
    }
  }
}
