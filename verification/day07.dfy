/** Day 7, "Camel Cards": classifying five-card hands, with and without
    jokers, ordering them, and adding up bid times rank. */
module Day07 {
  import opened Wrappers
  import Text
  import Seqs
  import Sorting

  // ---------------------------------------------------------------------
  // Hand types

  /** Declared from strongest to weakest; the derived order follows the
      explicit discriminants, not the declaration order. */
  datatype HandType = FiveOfAKind | FourOfAKind | FullHouse | ThreeOfAKind | TwoPair | OnePair | HighCard

  function Discriminant(t: HandType): nat {
    match t
    case FiveOfAKind => 10
    case FourOfAKind => 9
    case FullHouse => 8
    case ThreeOfAKind => 7
    case TwoPair => 6
    case OnePair => 5
    case HighCard => 4
  }

  /** Position in the order of poker strength, weakest first. */
  function Strength(t: HandType): nat {
    match t
    case HighCard => 0
    case OnePair => 1
    case TwoPair => 2
    case ThreeOfAKind => 3
    case FullHouse => 4
    case FourOfAKind => 5
    case FiveOfAKind => 6
  }

  /** The derived `Ord` of `HandType`: discriminants compared as integers. */
  function CompareTypes(a: HandType, b: HandType): (r: Ordering)
    ensures r == Equal <==> a == b
    ensures r == Less <==> Strength(a) < Strength(b)
    ensures r == Greater <==> Strength(b) < Strength(a)
  {
    if Discriminant(a) < Discriminant(b) then Less
    else if Discriminant(a) > Discriminant(b) then Greater
    else Equal
  }

  // ---------------------------------------------------------------------
  // Counting cards

  /** The `HashMap<u8, u8>` of card counts, as its entries in insertion
      order.  Every use of it below is independent of that order. */
  type Tally = seq<(nat, nat)>

  function Keys(t: Tally): seq<nat> {
    seq(|t|, i requires 0 <= i < |t| => t[i].0)
  }

  /** `counts.values()`. */
  function Values(t: Tally): seq<nat> {
    seq(|t|, i requires 0 <= i < |t| => t[i].1)
  }

  /** `counts.get(&k)`. */
  function Lookup(t: Tally, k: nat): Option<nat> {
    if |t| == 0 then None
    else if t[0].0 == k then Some(t[0].1)
    else Lookup(t[1..], k)
  }

  /** No key is entered twice. */
  predicate DistinctKeys(t: Tally) {
    |t| == 0 || (Lookup(t[1..], t[0].0).None? && DistinctKeys(t[1..]))
  }

  /** `*counts.entry(c).or_insert(0) += 1`. */
  function Bump(t: Tally, c: nat): (r: Tally)
    ensures |t| <= |r|
  {
    if |t| == 0 then [(c, 1)]
    else if t[0].0 == c then [(c, t[0].1 + 1)] + t[1..]
    else [t[0]] + Bump(t[1..], c)
  }

  /** The map after `hand.iter().for_each(...)`, one card at a time. */
  function TallyOf(cards: seq<nat>): Tally {
    if |cards| == 0 then [] else Bump(TallyOf(cards[..|cards| - 1]), cards[|cards| - 1])
  }

  /** Count of `k`, zero when absent. */
  function CountIn(t: Tally, k: nat): nat {
    match Lookup(t, k)
    case None => 0
    case Some(n) => n
  }

  lemma {:induction false} BumpLookup(t: Tally, c: nat, k: nat)
    ensures Lookup(Bump(t, c), k) == if k == c then Some(CountIn(t, c) + 1) else Lookup(t, k)
  {
    if |t| > 0 && t[0].0 != c {
      assert Bump(t, c)[1..] == Bump(t[1..], c);
      BumpLookup(t[1..], c, k);
    }
  }

  lemma {:induction false} BumpDistinct(t: Tally, c: nat)
    requires DistinctKeys(t)
    ensures DistinctKeys(Bump(t, c))
  {
    if |t| > 0 && t[0].0 != c {
      assert Bump(t, c)[1..] == Bump(t[1..], c);
      BumpDistinct(t[1..], c);
      BumpLookup(t[1..], c, t[0].0);
    }
  }

  /** The tally holds each card of the hand once, with its number of
      occurrences, and nothing else. */
  lemma {:induction false} TallyOfSpec(cards: seq<nat>)
    ensures DistinctKeys(TallyOf(cards))
    ensures forall k: nat :: Lookup(TallyOf(cards), k) == if k in cards then Some(Seqs.CountOf(cards, k)) else None
  {
    if |cards| > 0 {
      var front := cards[..|cards| - 1];
      var c := cards[|cards| - 1];
      assert cards == front + [c];
      TallyOfSpec(front);
      BumpDistinct(TallyOf(front), c);
      forall k: nat
        ensures Lookup(TallyOf(cards), k) == if k in cards then Some(Seqs.CountOf(cards, k)) else None
      {
        Seqs.CountOfAppend(front, [c], k);
        BumpLookup(TallyOf(front), c, k);
      }
    }
  }

  /** Every key is found at the position it was entered, with its value. */
  lemma {:induction false} LookupAt(t: Tally, i: nat)
    requires DistinctKeys(t) && i < |t|
    ensures Lookup(t, t[i].0) == Some(t[i].1)
  {
    if i > 0 {
      LookupAt(t[1..], i - 1);
    }
  }

  /** A key that is found sits at some position of the tally. */
  lemma {:induction false} LookupFound(t: Tally, k: nat) returns (i: nat)
    requires Lookup(t, k).Some?
    ensures i < |t| && t[i] == (k, Lookup(t, k).value)
  {
    if t[0].0 == k {
      i := 0;
    } else {
      var j := LookupFound(t[1..], k);
      i := j + 1;
    }
  }

  /** Every entry of the tally is the count of its key. */
  lemma TallyValues(cards: seq<nat>)
    ensures forall i :: 0 <= i < |TallyOf(cards)| ==>
      TallyOf(cards)[i].0 in cards && TallyOf(cards)[i].1 == Seqs.CountOf(cards, TallyOf(cards)[i].0)
  {
    var t := TallyOf(cards);
    TallyOfSpec(cards);
    forall i | 0 <= i < |t|
      ensures t[i].0 in cards && t[i].1 == Seqs.CountOf(cards, t[i].0)
    {
      LookupAt(t, i);
    }
  }

  /** Sum of the tally's values and their positivity. */
  lemma {:induction false} BumpValues(t: Tally, c: nat)
    requires forall i :: 0 <= i < |t| ==> t[i].1 >= 1
    ensures Seqs.Sum(Values(Bump(t, c))) == Seqs.Sum(Values(t)) + 1
    ensures forall i :: 0 <= i < |Bump(t, c)| ==> Bump(t, c)[i].1 >= 1
  {
    if |t| > 0 {
      var r := Bump(t, c);
      assert Values(t) == [t[0].1] + Values(t[1..]);
      if t[0].0 == c {
        assert Values(r) == [t[0].1 + 1] + Values(t[1..]);
      } else {
        BumpValues(t[1..], c);
        assert r == [t[0]] + Bump(t[1..], c);
        assert Values(r) == [t[0].1] + Values(Bump(t[1..], c));
      }
    }
  }

  /** The counts are positive and add up to the number of cards. */
  lemma {:induction false} TallySum(cards: seq<nat>)
    ensures Seqs.Sum(Values(TallyOf(cards))) == |cards|
    ensures forall i :: 0 <= i < |TallyOf(cards)| ==> TallyOf(cards)[i].1 >= 1
  {
    if |cards| > 0 {
      TallySum(cards[..|cards| - 1]);
      BumpValues(TallyOf(cards[..|cards| - 1]), cards[|cards| - 1]);
    }
  }

  // ---------------------------------------------------------------------
  // Classifying a hand from its counts

  const Unreachable := "internal error: entered unreachable code"

  /** The `match` on the largest count in `Hand::typ`, given that count,
      whether some count is 2 (`find`) and how many are (`filter().count()`). */
  function TypeByCounts(most: int, pairFound: bool, pairs: nat): Result<HandType> {
    if most == 5 then Ok(FiveOfAKind)
    else if most == 4 then Ok(FourOfAKind)
    else if most == 3 then Ok(if pairFound then FullHouse else ThreeOfAKind)
    else if most == 2 then Ok(if pairs == 2 then TwoPair else OnePair)
    else if most == 1 then Ok(HighCard)
    else Err(Panic(Unreachable))
  }

  /** The same `match` in `HandWithJokers::typ`, which also looks at the
      joker count `jacks`. */
  function JokerTypeByCounts(most: int, pairFound: bool, pairs: nat, jacks: Option<nat>): Result<HandType> {
    if most == 5 then Ok(FiveOfAKind)
    else if most == 4 then
      Ok(if jacks == Some(4) || jacks == Some(1) then FiveOfAKind else FourOfAKind)
    else if most == 3 then
      if pairFound then
        if jacks == Some(3) || jacks == Some(2) then Ok(FiveOfAKind)
        else if jacks == None then Ok(FullHouse)
        else Err(Panic(Unreachable))
      else
        if jacks == Some(3) || jacks == Some(1) then Ok(FourOfAKind)
        else if jacks == None then Ok(ThreeOfAKind)
        else Err(Panic(Unreachable))
    else if most == 2 then
      if pairs == 2 then
        if jacks == Some(2) then Ok(FourOfAKind)
        else if jacks == Some(1) then Ok(FullHouse)
        else if jacks == None then Ok(TwoPair)
        else Err(Panic(Unreachable))
      else
        if jacks == Some(2) || jacks == Some(1) then Ok(ThreeOfAKind)
        else if jacks == None then Ok(OnePair)
        else Err(Panic(Unreachable))
    else if most == 1 then
      if jacks == Some(1) then Ok(OnePair)
      else if jacks == None then Ok(HighCard)
      else Err(Panic(Unreachable))
    else Err(Panic(Unreachable))
  }

  /** `Hand::typ` after the counting: `max().unwrap()` panics on no counts. */
  function Classify(vs: seq<nat>): Result<HandType> {
    if |vs| == 0 then Err(Panic(UnwrapNone))
    else TypeByCounts(Seqs.Max(vs), 2 in vs, Seqs.CountOf(vs, 2))
  }

  /** `HandWithJokers::typ` after the counting. */
  function ClassifyWithJokers(vs: seq<nat>, jacks: Option<nat>): Result<HandType> {
    if |vs| == 0 then Err(Panic(UnwrapNone))
    else JokerTypeByCounts(Seqs.Max(vs), 2 in vs, Seqs.CountOf(vs, 2), jacks)
  }

  /** The card value jokers take in the second part. */
  const Joker: nat := 1

  /** `Hand::typ`. */
  function Typ(cards: seq<nat>): Result<HandType> {
    Classify(Values(TallyOf(cards)))
  }

  /** `HandWithJokers::typ`. */
  function JokerTyp(cards: seq<nat>): Result<HandType> {
    var counts := TallyOf(cards);
    ClassifyWithJokers(Values(counts), Lookup(counts, Joker))
  }

  /** Reordering the counts, as a different `HashMap` iteration order would,
      changes neither classification. */
  lemma ClassifyPermutation(a: seq<nat>, b: seq<nat>, jacks: Option<nat>)
    requires multiset(a) == multiset(b)
    ensures Classify(a) == Classify(b)
    ensures ClassifyWithJokers(a, jacks) == ClassifyWithJokers(b, jacks)
  {
    assert |a| == |multiset(a)| == |multiset(b)| == |b|;
    if |a| > 0 {
      forall x
        ensures x in a <==> x in b
      {
        assert x in a <==> x in multiset(a);
      }
      Seqs.MaxOfSameElements(a, b);
      Seqs.CountOfMultiset(a, 2);
      Seqs.CountOfMultiset(b, 2);
    }
  }

  /** Without a joker in the hand both classifications agree. */
  lemma ClassifyWithoutJokers(vs: seq<nat>)
    ensures ClassifyWithJokers(vs, None) == Classify(vs)
  {
  }

  // ---------------------------------------------------------------------
  // Five-card hands

  /** The `[u8; 5]` a hand holds. */
  type Cards = s: seq<nat> | |s| == 5 witness [0, 0, 0, 0, 0]

  predicate Positive(vs: seq<nat>) {
    forall i :: 0 <= i < |vs| ==> vs[i] >= 1
  }

  /** Counts between one and five split up by size: how many groups of
      each size there are, how many cards and how many groups. */
  lemma {:induction false} GroupSizes(vs: seq<nat>)
    requires forall i :: 0 <= i < |vs| ==> 1 <= vs[i] <= 5
    ensures Seqs.Sum(vs) == Seqs.CountOf(vs, 1) + 2 * Seqs.CountOf(vs, 2) + 3 * Seqs.CountOf(vs, 3)
      + 4 * Seqs.CountOf(vs, 4) + 5 * Seqs.CountOf(vs, 5)
    ensures |vs| == Seqs.CountOf(vs, 1) + Seqs.CountOf(vs, 2) + Seqs.CountOf(vs, 3)
      + Seqs.CountOf(vs, 4) + Seqs.CountOf(vs, 5)
  {
    if |vs| > 0 {
      GroupSizes(vs[1..]);
    }
  }

  /** The arithmetic every tally of five cards obeys. */
  lemma FiveCardProfile(vs: seq<nat>)
    requires Positive(vs) && Seqs.Sum(vs) == 5
    ensures |vs| > 0 && 1 <= Seqs.Max(vs) <= 5
    ensures forall i :: 0 <= i < |vs| ==> vs[i] <= 5
    ensures 5 == Seqs.CountOf(vs, 1) + 2 * Seqs.CountOf(vs, 2) + 3 * Seqs.CountOf(vs, 3)
      + 4 * Seqs.CountOf(vs, 4) + 5 * Seqs.CountOf(vs, 5)
    ensures |vs| == Seqs.CountOf(vs, 1) + Seqs.CountOf(vs, 2) + Seqs.CountOf(vs, 3)
      + Seqs.CountOf(vs, 4) + Seqs.CountOf(vs, 5)
    ensures Seqs.CountOf(vs, Seqs.Max(vs)) >= 1
    ensures forall k :: Seqs.Max(vs) < k ==> Seqs.CountOf(vs, k) == 0
  {
    forall i | 0 <= i < |vs|
      ensures vs[i] <= 5
    {
      Seqs.EntryAtMostSum(vs, i);
    }
    GroupSizes(vs);
  }

  /** The textbook definition of a hand's type from the number of distinct
      cards and the size of the largest group of equal cards. */
  function PokerType(groups: nat, largest: nat): HandType {
    if groups == 1 then FiveOfAKind
    else if groups == 2 then (if largest == 4 then FourOfAKind else FullHouse)
    else if groups == 3 then (if largest == 3 then ThreeOfAKind else TwoPair)
    else if groups == 4 then OnePair
    else HighCard
  }

  lemma ClassifyFiveCards(vs: seq<nat>)
    requires Positive(vs) && Seqs.Sum(vs) == 5
    ensures Classify(vs) == Ok(PokerType(|vs|, Seqs.Max(vs)))
  {
    FiveCardProfile(vs);
  }

  /** The distinct cards of a hand. */
  function Distinct(cards: seq<nat>): set<nat> {
    set c | c in cards
  }

  /** The size of the largest group of equal cards. */
  function MostOfAKind(cards: seq<nat>): nat
    requires |cards| > 0
  {
    Seqs.Max(seq(|cards|, i requires 0 <= i < |cards| => Seqs.CountOf(cards, cards[i])))
  }

  lemma {:induction false} BumpLength(t: Tally, c: nat)
    ensures |Bump(t, c)| == |t| + (if Lookup(t, c).None? then 1 else 0)
  {
    if |t| > 0 && t[0].0 != c {
      BumpLength(t[1..], c);
    }
  }

  /** The tally has one entry per distinct card. */
  lemma {:induction false} TallySize(cards: seq<nat>)
    ensures |TallyOf(cards)| == |Distinct(cards)|
  {
    if |cards| > 0 {
      var front := cards[..|cards| - 1];
      var c := cards[|cards| - 1];
      assert cards == front + [c];
      assert Distinct(cards) == Distinct(front) + {c};
      TallySize(front);
      TallyOfSpec(front);
      BumpLength(TallyOf(front), c);
    }
  }

  /** The largest value of the tally is the largest group of equal cards. */
  lemma TallyMax(cards: seq<nat>)
    requires |cards| > 0
    ensures |TallyOf(cards)| > 0 && Seqs.Max(Values(TallyOf(cards))) == MostOfAKind(cards)
  {
    var t := TallyOf(cards);
    var ms := seq(|cards|, i requires 0 <= i < |cards| => Seqs.CountOf(cards, cards[i]));
    TallyValues(cards);
    TallyOfSpec(cards);
    forall x
      ensures x in Values(t) <==> x in ms
    {
      if x in Values(t) {
        var i :| 0 <= i < |t| && Values(t)[i] == x;
        var p :| 0 <= p < |cards| && cards[p] == t[i].0;
        assert ms[p] == x;
      }
      if x in ms {
        var p :| 0 <= p < |cards| && ms[p] == x;
        var i := LookupFound(t, cards[p]);
        assert Values(t)[i] == x;
      }
    }
    assert ms[0] in Values(t);
    Seqs.MaxOfSameElements(ms, Values(t));
  }

  /** `Hand::typ` never panics on five cards. */
  lemma TypTotal(cards: Cards)
    ensures Typ(cards).Ok?
  {
    TypIsPokerType(cards);
  }

  /** `Hand::typ` of five cards is the textbook type; in particular it never
      reaches `unreachable!()`.  Only the number of distinct cards and the
      largest group matter, so the type depends on the counts alone. */
  lemma TypIsPokerType(cards: Cards)
    ensures Typ(cards) == Ok(PokerType(|Distinct(cards)|, MostOfAKind(cards)))
  {
    var vs := Values(TallyOf(cards));
    TallySum(cards);
    TallySize(cards);
    TallyMax(cards);
    ClassifyFiveCards(vs);
  }

  /** The joker count is one of the counts. */
  lemma JokerCountIsCount(cards: seq<nat>)
    ensures Lookup(TallyOf(cards), Joker).Some? ==> Lookup(TallyOf(cards), Joker).value in Values(TallyOf(cards))
  {
    if Lookup(TallyOf(cards), Joker).Some? {
      var i := LookupFound(TallyOf(cards), Joker);
      assert Values(TallyOf(cards))[i] == TallyOf(cards)[i].1;
    }
  }

  /** On the counts of five cards, with the joker count one of them, the
      joker classification always reaches a hand type. */
  lemma ClassifyWithJokersTotal(vs: seq<nat>, jacks: Option<nat>)
    requires Positive(vs) && Seqs.Sum(vs) == 5
    requires jacks.Some? ==> jacks.value in vs
    ensures ClassifyWithJokers(vs, jacks).Ok?
  {
    FiveCardProfile(vs);
    var m := Seqs.Max(vs);
    if jacks.Some? {
      var j := jacks.value;
      assert 1 <= j <= m;
      assert Seqs.CountOf(vs, j) >= 1;
      if j == 1 {
      } else if j == 2 {
      } else if j == 3 {
      } else if j == 4 {
      } else {
      }
    }
  }

  /** `HandWithJokers::typ` never reaches one of its `unreachable!()` arms
      on five cards. */
  lemma JokerTypTotal(cards: Cards)
    ensures JokerTyp(cards).Ok?
  {
    TallySum(cards);
    JokerCountIsCount(cards);
    ClassifyWithJokersTotal(Values(TallyOf(cards)), Lookup(TallyOf(cards), Joker));
  }

  // ---------------------------------------------------------------------
  // Jokers as the most frequent other card

  /** Each joker turned into `best`. */
  function Replace(cards: seq<nat>, best: nat): (r: seq<nat>)
    ensures |r| == |cards|
  {
    if |cards| == 0 then []
    else [if cards[0] == Joker then best else cards[0]] + Replace(cards[1..], best)
  }

  lemma {:induction false} ReplaceCount(cards: seq<nat>, best: nat, k: nat)
    requires best != Joker
    ensures Seqs.CountOf(Replace(cards, best), k) ==
      if k == Joker then 0
      else if k == best then Seqs.CountOf(cards, best) + Seqs.CountOf(cards, Joker)
      else Seqs.CountOf(cards, k)
  {
    if |cards| > 0 {
      ReplaceCount(cards[1..], best, k);
    }
  }

  /** The largest entry of a sequence, given as the one at position `at`. */
  lemma MaxIsAt(s: seq<nat>, at: nat)
    requires at < |s| && forall i :: 0 <= i < |s| ==> s[i] <= s[at]
    ensures Seqs.Max(s) == s[at]
  {
    assert Seqs.Max(s) in s;
  }

  /** The joker classification when `j` jokers form a group of their own
      next to other groups, the largest of which has `b` cards and `n2` of
      which are pairs. */
  function ApartCounts(b: nat, n2: nat, j: nat): Result<HandType> {
    var pairs := n2 + (if j == 2 then 1 else 0);
    JokerTypeByCounts(if b >= j then b else j, pairs > 0, pairs, Some(j))
  }

  /** The plain classification once the largest group, of `b` cards, has
      grown to `joined` cards; `n2` groups were pairs before. */
  function JoinedCounts(b: nat, n2: nat, joined: nat): Result<HandType> {
    var n := n2 - (if b == 2 then 1 else 0) + (if joined == 2 then 1 else 0);
    var pairs: nat := if n < 0 then 0 else n;
    TypeByCounts(joined, pairs > 0, pairs)
  }

  /** The joker table in numbers: `n1`..`n5` count the groups of each size
      among the other cards, the largest of which has `b` cards, and there
      are `j` jokers. */
  lemma JokerTableArithmetic(n1: nat, n2: nat, n3: nat, n4: nat, n5: nat, b: nat, j: nat, joined: nat)
    requires n1 + 2 * n2 + 3 * n3 + 4 * n4 + 5 * n5 + j == 5 && 1 <= j && 1 <= b
    requires b <= 5 && (b == 1 ==> n1 >= 1) && (b == 2 ==> n2 >= 1) && (b == 3 ==> n3 >= 1) && (b == 4 ==> n4 >= 1)
      && (b == 5 ==> n5 >= 1)
    requires (b < 2 ==> n2 == 0) && (b < 3 ==> n3 == 0) && (b < 4 ==> n4 == 0) && (b < 5 ==> n5 == 0)
    requires joined == b + j
    ensures ApartCounts(b, n2, j) == JoinedCounts(b, n2, joined)
  {
  }

  /** The joker side of `JokerTable`: the jokers form a group of their own,
      so the largest count is the larger of `cs[at]` and `j`. */
  lemma JokersApart(cs: seq<nat>, j: nat, at: nat)
    requires at < |cs| && forall i :: 0 <= i < |cs| ==> cs[i] <= cs[at]
    ensures ClassifyWithJokers(cs + [j], Some(j)) == ApartCounts(cs[at], Seqs.CountOf(cs, 2), j)
  {
    MaxOfSnoc(cs, j, at);
    CountOfSnoc(cs, j, 2);
    ApartFromCounts(cs, j, cs[at], Seqs.CountOf(cs, 2));
  }

  /** `ClassifyWithJokers` once the largest count and the number of pairs
      of `cs + [j]` are known. */
  lemma ApartFromCounts(cs: seq<nat>, j: nat, b: nat, n2: nat)
    requires Seqs.Max(cs + [j]) == (if b >= j then b else j)
    requires Seqs.CountOf(cs + [j], 2) == n2 + (if j == 2 then 1 else 0)
    ensures ClassifyWithJokers(cs + [j], Some(j)) == ApartCounts(b, n2, j)
  {
  }

  lemma CountOfSnoc(cs: seq<nat>, j: nat, x: nat)
    ensures Seqs.CountOf(cs + [j], x) == Seqs.CountOf(cs, x) + (if j == x then 1 else 0)
  {
    Seqs.CountOfAppend(cs, [j], x);
  }

  /** The largest entry after appending `j`. */
  lemma MaxOfSnoc(cs: seq<nat>, j: nat, at: nat)
    requires at < |cs| && forall i :: 0 <= i < |cs| ==> cs[i] <= cs[at]
    ensures Seqs.Max(cs + [j]) == if cs[at] >= j then cs[at] else j
  {
    if cs[at] >= j {
      MaxIsAt(cs + [j], at);
    } else {
      MaxIsAt(cs + [j], |cs|);
    }
  }



  /** The plain side of `JokerTable`: the jokers join the group at `at`. */
  lemma JokersJoined(cs: seq<nat>, at: nat, joined: nat)
    requires at < |cs| && forall i :: 0 <= i < |cs| ==> cs[i] <= cs[at]
    requires cs[at] <= joined
    ensures Classify(cs[at := joined]) == JoinedCounts(cs[at], Seqs.CountOf(cs, 2), joined)
  {
    var u := cs[at := joined];
    MaxIsAt(u, at);
    Seqs.CountOfUpdate(cs, at, joined, 2);
    if cs[at] == 2 {
      assert cs[at] in cs;
    }
  }

  /** How the other cards' groups are sized when the largest has `b` cards. */
  lemma OthersProfile(cs: seq<nat>, b: nat)
    requires Positive(cs) && Seqs.Sum(cs) <= 5
    requires b in cs && forall i :: 0 <= i < |cs| ==> cs[i] <= b
    ensures Seqs.Sum(cs) == Seqs.CountOf(cs, 1) + 2 * Seqs.CountOf(cs, 2) + 3 * Seqs.CountOf(cs, 3)
      + 4 * Seqs.CountOf(cs, 4) + 5 * Seqs.CountOf(cs, 5)
    ensures Seqs.CountOf(cs, b) >= 1 && 1 <= b <= 5
    ensures forall k :: b < k ==> Seqs.CountOf(cs, k) == 0
  {
    GroupSizesOfOthers(cs);
    var at :| 0 <= at < |cs| && cs[at] == b;
    Seqs.EntryAtMostSum(cs, at);
    forall k | b < k
      ensures Seqs.CountOf(cs, k) == 0
    {
      assert k !in cs;
    }
  }

  /** The table in `HandWithJokers::typ`, on counts: with `j` jokers and the
      other cards counted by `cs`, whose largest group is at `at`, the joker
      type is the plain type once the jokers join that largest group. */
  lemma JokerTable(cs: seq<nat>, j: nat, at: nat, joined: nat)
    requires Positive(cs) && Seqs.Sum(cs) + j == 5 && 1 <= j
    requires at < |cs| && forall i :: 0 <= i < |cs| ==> cs[i] <= cs[at]
    requires joined == cs[at] + j
    ensures ClassifyWithJokers(cs + [j], Some(j)) == Classify(cs[at := joined])
  {
    JokersApart(cs, j, at);
    JokerTableCounts(cs, j, at, joined);
    JokersJoined(cs, at, joined);
  }

  /** `JokerTableArithmetic` applied to the group sizes of `cs`. */
  lemma JokerTableCounts(cs: seq<nat>, j: nat, at: nat, joined: nat)
    requires Positive(cs) && Seqs.Sum(cs) + j == 5 && 1 <= j
    requires at < |cs| && forall i :: 0 <= i < |cs| ==> cs[i] <= cs[at]
    requires joined == cs[at] + j
    ensures ApartCounts(cs[at], Seqs.CountOf(cs, 2), j) == JoinedCounts(cs[at], Seqs.CountOf(cs, 2), joined)
  {
    OthersProfile(cs, cs[at]);
    JokerTableArithmetic(Seqs.CountOf(cs, 1), Seqs.CountOf(cs, 2), Seqs.CountOf(cs, 3), Seqs.CountOf(cs, 4),
      Seqs.CountOf(cs, 5), cs[at], j, joined);
  }

  /** `GroupSizes` for the counts of the cards other than the jokers. */
  lemma GroupSizesOfOthers(cs: seq<nat>)
    requires Positive(cs) && Seqs.Sum(cs) <= 5
    ensures Seqs.Sum(cs) == Seqs.CountOf(cs, 1) + 2 * Seqs.CountOf(cs, 2) + 3 * Seqs.CountOf(cs, 3)
      + 4 * Seqs.CountOf(cs, 4) + 5 * Seqs.CountOf(cs, 5)
    ensures |cs| == Seqs.CountOf(cs, 1) + Seqs.CountOf(cs, 2) + Seqs.CountOf(cs, 3)
      + Seqs.CountOf(cs, 4) + Seqs.CountOf(cs, 5)
  {
    forall i | 0 <= i < |cs|
      ensures cs[i] <= 5
    {
      Seqs.EntryAtMostSum(cs, i);
    }
    GroupSizes(cs);
  }

  // ---------------------------------------------------------------------
  // The tally's values up to order

  predicate NoDuplicates(ks: seq<nat>) {
    forall i, j :: 0 <= i < j < |ks| ==> ks[i] != ks[j]
  }

  /** The number of times each card of `ks` occurs in `cards`. */
  function Multiplicities(cards: seq<nat>, ks: seq<nat>): seq<nat> {
    seq(|ks|, i requires 0 <= i < |ks| => Seqs.CountOf(cards, ks[i]))
  }

  lemma {:induction false} NoDuplicatesMultiset(ks: seq<nat>)
    requires NoDuplicates(ks)
    ensures forall x :: multiset(ks)[x] == if x in ks then 1 else 0
  {
    if |ks| > 0 {
      assert ks == [ks[0]] + ks[1..];
      assert ks[0] !in ks[1..];
      NoDuplicatesMultiset(ks[1..]);
    }
  }

  /** Two duplicate-free sequences with the same elements are permutations
      of each other. */
  lemma SameElementsPermutation(a: seq<nat>, b: seq<nat>)
    requires NoDuplicates(a) && NoDuplicates(b) && forall x :: x in a <==> x in b
    ensures multiset(a) == multiset(b)
  {
    NoDuplicatesMultiset(a);
    NoDuplicatesMultiset(b);
    assert forall x :: multiset(a)[x] == multiset(b)[x];
  }

  lemma MultiplicitiesRemoveAt(cards: seq<nat>, b: seq<nat>, i: nat)
    requires i < |b|
    ensures multiset(Multiplicities(cards, b[..i] + b[i + 1..]))
      == multiset(Multiplicities(cards, b)) - multiset{Seqs.CountOf(cards, b[i])}
  {
    var mb := Multiplicities(cards, b);
    assert Multiplicities(cards, b[..i] + b[i + 1..]) == mb[..i] + mb[i + 1..];
    Seqs.MultisetRemoveAt(mb, i);
  }

  lemma {:induction false} MultiplicitiesPermutation(cards: seq<nat>, a: seq<nat>, b: seq<nat>)
    requires multiset(a) == multiset(b)
    ensures multiset(Multiplicities(cards, a)) == multiset(Multiplicities(cards, b))
    decreases |a|
  {
    if |a| == 0 {
      assert |b| == |multiset(b)| == 0;
    } else {
      assert a[0] in multiset(b);
      var i :| 0 <= i < |b| && b[i] == a[0];
      assert a == [a[0]] + a[1..];
      var rest := b[..i] + b[i + 1..];
      var c := Seqs.CountOf(cards, a[0]);
      var mb := multiset(Multiplicities(cards, b));
      Seqs.MultisetRemoveAt(b, i);
      assert Multiplicities(cards, b)[i] == c;
      assert c in mb;
      calc {
        multiset(Multiplicities(cards, a));
        { MultiplicitiesCons(cards, a); }
        multiset{c} + multiset(Multiplicities(cards, a[1..]));
        { MultiplicitiesPermutation(cards, a[1..], rest); }
        multiset{c} + multiset(Multiplicities(cards, rest));
        { MultiplicitiesRemoveAt(cards, b, i); }
        multiset{c} + (mb - multiset{c});
        mb;
      }
    }
  }

  lemma MultiplicitiesCons(cards: seq<nat>, a: seq<nat>)
    requires |a| > 0
    ensures multiset(Multiplicities(cards, a)) == multiset{Seqs.CountOf(cards, a[0])} + multiset(Multiplicities(cards, a[1..]))
  {
    assert Multiplicities(cards, a) == [Seqs.CountOf(cards, a[0])] + Multiplicities(cards, a[1..]);
  }

  lemma {:induction false} LookupMissing(t: Tally, k: nat)
    ensures Lookup(t, k).None? <==> k !in Keys(t)
  {
    if |t| > 0 {
      assert Keys(t) == [t[0].0] + Keys(t[1..]);
      LookupMissing(t[1..], k);
    }
  }

  lemma {:induction false} DistinctKeysNoDuplicates(t: Tally)
    requires DistinctKeys(t)
    ensures NoDuplicates(Keys(t))
  {
    if |t| > 0 {
      DistinctKeysNoDuplicates(t[1..]);
      LookupMissing(t[1..], t[0].0);
      assert Keys(t) == [t[0].0] + Keys(t[1..]);
    }
  }

  /** The values of the tally are, up to order, the multiplicities of any
      duplicate-free list of the hand's cards. */
  lemma TallyAsMultiplicities(cards: seq<nat>, ks: seq<nat>)
    requires NoDuplicates(ks) && forall x: nat :: x in ks <==> x in cards
    ensures multiset(Values(TallyOf(cards))) == multiset(Multiplicities(cards, ks))
  {
    var t := TallyOf(cards);
    var keys := Keys(t);
    TallyOfSpec(cards);
    TallyValues(cards);
    DistinctKeysNoDuplicates(t);
    forall x: nat
      ensures x in keys <==> x in cards
    {
      LookupMissing(t, x);
    }
    assert Values(t) == Multiplicities(cards, keys);
    SameElementsPermutation(keys, ks);
    MultiplicitiesPermutation(cards, keys, ks);
  }

  // ---------------------------------------------------------------------
  // Jokers as the most frequent other card, on hands

  /** The cards that are not jokers, in order. */
  function WithoutJokers(cards: seq<nat>): seq<nat> {
    if |cards| == 0 then []
    else (if cards[0] == Joker then [] else [cards[0]]) + WithoutJokers(cards[1..])
  }

  lemma {:induction false} WithoutJokersSpec(cards: seq<nat>)
    ensures forall x :: x in WithoutJokers(cards) <==> x in cards && x != Joker
  {
    if |cards| > 0 {
      WithoutJokersSpec(cards[1..]);
      assert cards == [cards[0]] + cards[1..];
    }
  }

  /** The distinct cards other than jokers. */
  function OtherCards(cards: seq<nat>): seq<nat> {
    Keys(TallyOf(WithoutJokers(cards)))
  }

  lemma OtherCardsSpec(cards: seq<nat>)
    ensures NoDuplicates(OtherCards(cards))
    ensures forall x: nat :: x in OtherCards(cards) <==> x in cards && x != Joker
  {
    var t := TallyOf(WithoutJokers(cards));
    TallyOfSpec(WithoutJokers(cards));
    WithoutJokersSpec(cards);
    DistinctKeysNoDuplicates(t);
    forall x: nat
      ensures x in Keys(t) <==> x in cards && x != Joker
    {
      LookupMissing(t, x);
    }
  }

  /** The joker side: up to order, the tally of the hand is the counts of
      the other cards followed by the joker count. */
  lemma JokerSideCounts(cards: seq<nat>)
    requires Joker in cards
    ensures multiset(Values(TallyOf(cards)))
      == multiset(Multiplicities(cards, OtherCards(cards)) + [Seqs.CountOf(cards, Joker)])
  {
    var ks := OtherCards(cards);
    OtherCardsSpec(cards);
    var all := ks + [Joker];
    assert NoDuplicates(all) by {
      assert Joker !in ks;
    }
    forall x: nat
      ensures x in all <==> x in cards
    {
    }
    TallyAsMultiplicities(cards, all);
    MultiplicitiesSnoc(cards, ks, Joker);
  }

  lemma MultiplicitiesSnoc(cards: seq<nat>, ks: seq<nat>, x: nat)
    ensures Multiplicities(cards, ks + [x]) == Multiplicities(cards, ks) + [Seqs.CountOf(cards, x)]
  {
    var l := Multiplicities(cards, ks + [x]);
    var r := Multiplicities(cards, ks) + [Seqs.CountOf(cards, x)];
    assert |l| == |r|;
    forall i | 0 <= i < |l|
      ensures l[i] == r[i]
    {
      if i < |ks| {
        assert (ks + [x])[i] == ks[i];
      }
    }
  }

  lemma ReplacedElements(cards: seq<nat>, best: nat)
    requires best != Joker && best in cards
    ensures forall x: nat :: x in Replace(cards, best) <==> x in cards && x != Joker
  {
    forall x: nat
      ensures x in Replace(cards, best) <==> x in cards && x != Joker
    {
      ReplaceCount(cards, best, x);
    }
  }

  /** The plain side: up to order, the tally of the replaced hand is the
      counts of the other cards with the jokers added to `best`'s. */
  lemma ReplacedSideCounts(cards: seq<nat>, best: nat, at: nat, joined: nat)
    requires best != Joker && best in cards
    requires at < |OtherCards(cards)| && OtherCards(cards)[at] == best
    requires joined == Seqs.CountOf(cards, best) + Seqs.CountOf(cards, Joker)
    ensures multiset(Values(TallyOf(Replace(cards, best))))
      == multiset(Multiplicities(cards, OtherCards(cards))[at := joined])
  {
    var ks := OtherCards(cards);
    var r := Replace(cards, best);
    OtherCardsSpec(cards);
    ReplacedElements(cards, best);
    TallyAsMultiplicities(r, ks);
    forall i | 0 <= i < |ks|
      ensures Multiplicities(r, ks)[i] == Multiplicities(cards, ks)[at := joined][i]
    {
      ReplaceCount(cards, best, ks[i]);
    }
    assert Multiplicities(r, ks) == Multiplicities(cards, ks)[at := joined];
  }

  /** The counts of the other cards, with `best`'s the largest. */
  lemma OtherCounts(cards: seq<nat>, best: nat, at: nat)
    requires best != Joker
    requires forall c :: c in cards && c != Joker ==> Seqs.CountOf(cards, c) <= Seqs.CountOf(cards, best)
    requires at < |OtherCards(cards)| && OtherCards(cards)[at] == best
    ensures var cs := Multiplicities(cards, OtherCards(cards));
      Positive(cs) && forall i :: 0 <= i < |cs| ==> cs[i] <= cs[at]
  {
    OtherCardsSpec(cards);
  }

  /** With at least one joker and one other card. */
  lemma JokerTypSomeJokers(cards: Cards, best: nat)
    requires best != Joker && Joker in cards && best in cards
    requires forall c :: c in cards && c != Joker ==> Seqs.CountOf(cards, c) <= Seqs.CountOf(cards, best)
    ensures JokerTyp(cards) == Typ(Replace(cards, best))
  {
    var ks := OtherCards(cards);
    OtherCardsSpec(cards);
    var at :| 0 <= at < |ks| && ks[at] == best;
    var cs := Multiplicities(cards, ks);
    var j := Seqs.CountOf(cards, Joker);
    var joined: nat := cs[at] + j;
    JokerTypOfOthers(cards);
    TypOfReplaced(cards, best, at, joined);
    OthersShape(cards, best, at);
    JokerTable(cs, j, at, joined);
  }

  /** The joker type read off the other cards' counts and the joker count. */
  lemma JokerTypOfOthers(cards: seq<nat>)
    requires Joker in cards
    ensures var j := Seqs.CountOf(cards, Joker);
      JokerTyp(cards) == ClassifyWithJokers(Multiplicities(cards, OtherCards(cards)) + [j], Some(j))
  {
    var j := Seqs.CountOf(cards, Joker);
    JokerSideCounts(cards);
    TallyOfSpec(cards);
    ClassifyPermutation(Values(TallyOf(cards)), Multiplicities(cards, OtherCards(cards)) + [j], Some(j));
  }

  /** The plain type of the replaced hand read off the other cards' counts. */
  lemma TypOfReplaced(cards: seq<nat>, best: nat, at: nat, joined: nat)
    requires best != Joker && best in cards
    requires at < |OtherCards(cards)| && OtherCards(cards)[at] == best
    requires joined == Seqs.CountOf(cards, best) + Seqs.CountOf(cards, Joker)
    ensures Typ(Replace(cards, best)) == Classify(Multiplicities(cards, OtherCards(cards))[at := joined])
  {
    ReplacedSideCounts(cards, best, at, joined);
    ClassifyPermutation(Values(TallyOf(Replace(cards, best))), Multiplicities(cards, OtherCards(cards))[at := joined], None);
  }

  /** The other cards' counts meet the conditions of `JokerTable`. */
  lemma OthersShape(cards: Cards, best: nat, at: nat)
    requires best != Joker && Joker in cards
    requires forall c :: c in cards && c != Joker ==> Seqs.CountOf(cards, c) <= Seqs.CountOf(cards, best)
    requires at < |OtherCards(cards)| && OtherCards(cards)[at] == best
    ensures var cs := Multiplicities(cards, OtherCards(cards));
      Positive(cs) && Seqs.Sum(cs) + Seqs.CountOf(cards, Joker) == 5 && 1 <= Seqs.CountOf(cards, Joker)
      && forall i :: 0 <= i < |cs| ==> cs[i] <= cs[at]
  {
    var cs := Multiplicities(cards, OtherCards(cards));
    var j := Seqs.CountOf(cards, Joker);
    var vs := Values(TallyOf(cards));
    JokerSideCounts(cards);
    OtherCounts(cards, best, at);
    TallySum(cards);
    Seqs.SumOfPermutation(vs, cs + [j]);
    Seqs.SumAppend(cs, [j]);
  }

  lemma {:induction false} ReplaceWithoutJokers(cards: seq<nat>, best: nat)
    requires Joker !in cards
    ensures Replace(cards, best) == cards
  {
    if |cards| > 0 {
      ReplaceWithoutJokers(cards[1..], best);
      assert cards == [cards[0]] + cards[1..];
    }
  }

  /** A hand of jokers only is five of a kind either way. */
  lemma JokerTypAllJokers(cards: Cards, best: nat)
    requires best != Joker && forall c :: c in cards ==> c == Joker
    ensures JokerTyp(cards) == Ok(FiveOfAKind)
    ensures Typ(Replace(cards, best)) == Ok(FiveOfAKind)
  {
    var t := TallyOf(cards);
    var vs := Values(t);
    TallySum(cards);
    TallyOfSpec(cards);
    FiveCardProfile(vs);
    JokerCountIsCount(cards);
    assert Joker in cards by {
      assert cards[0] in cards;
    }
    ReplaceCount(cards, best, best);
    assert Seqs.CountOf(cards, Joker) == 5 by {
      JokersCount(cards);
    }
    var r := Replace(cards, best);
    assert Distinct(r) == {best} by {
      forall x: nat | x in r
        ensures x == best
      {
        ReplaceCount(cards, best, x);
      }
      assert best in r;
    }
    TypIsPokerType(r);
  }

  /** Every card is a joker: the joker count is the number of cards. */
  lemma {:induction false} JokersCount(cards: seq<nat>)
    requires forall c :: c in cards ==> c == Joker
    ensures Seqs.CountOf(cards, Joker) == |cards|
  {
    if |cards| > 0 {
      assert cards[0] in cards;
      assert forall c :: c in cards[1..] ==> c in cards;
      JokersCount(cards[1..]);
    }
  }

  /** The claim next to `HandWithJokers::typ`: the joker type of a hand is
      the plain type of the hand in which every joker has become `best`, a
      most frequent card among the others (any card when all five are
      jokers). */
  lemma JokersBecomeBestCard(cards: Cards, best: nat)
    requires best != Joker
    requires forall c :: c in cards && c != Joker ==> Seqs.CountOf(cards, c) <= Seqs.CountOf(cards, best)
    ensures JokerTyp(cards) == Typ(Replace(cards, best))
  {
    if Joker !in cards {
      ReplaceWithoutJokers(cards, best);
      TallyOfSpec(cards);
      ClassifyWithoutJokers(Values(TallyOf(cards)));
    } else if c :| c in cards && c != Joker {
      assert Seqs.CountOf(cards, best) >= Seqs.CountOf(cards, c) >= 1;
      JokerTypSomeJokers(cards, best);
    } else {
      JokerTypAllJokers(cards, best);
    }
  }

  // ---------------------------------------------------------------------
  // Ordering hands

  /** The hand type, which `typ()` always reaches for five cards. */
  function TypeOf(jokers: bool, cards: Cards): HandType {
    if jokers then
      JokerTypTotal(cards);
      JokerTyp(cards).value
    else
      TypTotal(cards);
      Typ(cards).value
  }

  /** `partial_cmp` of `[u8; 5]`: lexicographic on the card values. */
  function LexCompare(a: seq<nat>, b: seq<nat>): Ordering {
    if |a| == 0 && |b| == 0 then Equal
    else if |a| == 0 then Less
    else if |b| == 0 then Greater
    else if a[0] < b[0] then Less
    else if a[0] > b[0] then Greater
    else LexCompare(a[1..], b[1..])
  }

  /** Lexicographic order agrees with equality ... */
  lemma {:induction false} LexEqual(a: seq<nat>, b: seq<nat>)
    ensures LexCompare(a, b) == Equal <==> a == b
  {
    if |a| > 0 && |b| > 0 && a[0] == b[0] {
      LexEqual(a[1..], b[1..]);
      assert a == [a[0]] + a[1..] && b == [b[0]] + b[1..];
    }
  }

  /** ... swapping the arguments reverses it ... */
  lemma {:induction false} LexReverse(a: seq<nat>, b: seq<nat>)
    ensures LexCompare(b, a) == LexCompare(a, b).Reverse()
  {
    if |a| > 0 && |b| > 0 && a[0] == b[0] {
      LexReverse(a[1..], b[1..]);
    }
  }

  /** ... and it is transitive. */
  lemma {:induction false} LexTransitive(a: seq<nat>, b: seq<nat>, c: seq<nat>)
    requires LexCompare(a, b) == Less && LexCompare(b, c) == Less
    ensures LexCompare(a, c) == Less
  {
    if |a| > 0 && |b| > 0 && |c| > 0 && a[0] == b[0] && b[0] == c[0] {
      LexTransitive(a[1..], b[1..], c[1..]);
    }
  }

  /** For arrays of one length: `a` comes first exactly when, at the first
      position where the two differ, `a` holds the smaller card. */
  lemma {:induction false} LexFirstDifference(a: seq<nat>, b: seq<nat>)
    requires |a| == |b|
    ensures LexCompare(a, b) == Less <==> exists k :: 0 <= k < |a| && a[..k] == b[..k] && a[k] < b[k]
  {
    if |a| > 0 {
      LexFirstDifference(a[1..], b[1..]);
      if a[0] == b[0] {
        if LexCompare(a, b) == Less {
          var k :| 0 <= k < |a| - 1 && a[1..][..k] == b[1..][..k] && a[1..][k] < b[1..][k];
          assert a[..k + 1] == [a[0]] + a[1..][..k];
          assert b[..k + 1] == [b[0]] + b[1..][..k];
        }
        if k :| 0 <= k < |a| && a[..k] == b[..k] && a[k] < b[k] {
          assert k > 0;
          assert a[1..][..k - 1] == a[1..k] == b[1..k] == b[1..][..k - 1];
        }
      } else {
        if a[0] < b[0] {
          assert a[..0] == b[..0];
        }
      }
    }
  }

  /** `partial_cmp` of `Hand` (without jokers) and of `HandWithJokers`:
      the hand types first, the cards when the types tie. */
  function CompareHands(jokers: bool, a: Cards, b: Cards): (r: Ordering)
    ensures r == Equal <==> a == b
  {
    LexEqual(a, b);
    match CompareTypes(TypeOf(jokers, a), TypeOf(jokers, b))
    case Less => Less
    case Greater => Greater
    case Equal => LexCompare(a, b)
  }

  lemma CompareHandsReverse(jokers: bool, a: Cards, b: Cards)
    ensures CompareHands(jokers, b, a) == CompareHands(jokers, a, b).Reverse()
  {
    LexReverse(a, b);
  }

  lemma CompareHandsTransitive(jokers: bool, a: Cards, b: Cards, c: Cards)
    requires CompareHands(jokers, a, b) == Less && CompareHands(jokers, b, c) == Less
    ensures CompareHands(jokers, a, c) == Less
  {
    if TypeOf(jokers, a) == TypeOf(jokers, b) == TypeOf(jokers, c) {
      LexTransitive(a, b, c);
    }
  }

  // ---------------------------------------------------------------------
  // Ranking hands

  datatype Hand = Hand(cards: Cards, bid: nat)

  /** `a <= b` under the derived `PartialOrd`. */
  predicate Le(jokers: bool, a: Hand, b: Hand) {
    CompareHands(jokers, a.cards, b.cards) != Greater
  }

  lemma LeTotal(jokers: bool, a: Hand, b: Hand)
    ensures Le(jokers, a, b) || Le(jokers, b, a)
  {
    CompareHandsReverse(jokers, a.cards, b.cards);
  }

  lemma LeTransitive(jokers: bool, a: Hand, b: Hand, c: Hand)
    requires Le(jokers, a, b) && Le(jokers, b, c)
    ensures Le(jokers, a, c)
  {
    if CompareHands(jokers, a.cards, b.cards) == Less && CompareHands(jokers, b.cards, c.cards) == Less {
      CompareHandsTransitive(jokers, a.cards, b.cards, c.cards);
    }
  }

  /** Both `a <= b` and `b <= a` only for hands holding the same cards. */
  lemma LeAntisymmetric(jokers: bool, a: Hand, b: Hand)
    requires Le(jokers, a, b) && Le(jokers, b, a)
    ensures a.cards == b.cards
  {
    CompareHandsReverse(jokers, a.cards, b.cards);
  }

  /** The order of `Hand` (without jokers) or `HandWithJokers` as the test
      `sort_unstable` uses. */
  function HandOrder(jokers: bool): (le: (Hand, Hand) -> bool)
    ensures Sorting.Total(le) && Sorting.Transitive(le)
  {
    var le := (a: Hand, b: Hand) => Le(jokers, a, b);
    assert Sorting.Total(le) by {
      forall a, b ensures le(a, b) || le(b, a) {
        LeTotal(jokers, a, b);
      }
    }
    assert Sorting.Transitive(le) by {
      forall a, b, c | le(a, b) && le(b, c) ensures le(a, c) {
        LeTransitive(jokers, a, b, c);
      }
    }
    le
  }

  /** No two hands hold the same cards. */
  predicate DistinctCards(s: seq<Hand>) {
    forall i, j :: 0 <= i < j < |s| ==> s[i].cards != s[j].cards
  }

  lemma DistinctCardsNoTies(jokers: bool, s: seq<Hand>)
    requires DistinctCards(s)
    ensures Sorting.NoTies(HandOrder(jokers), s)
  {
    forall i, j | 0 <= i < j < |s|
      ensures !(HandOrder(jokers)(s[i], s[j]) && HandOrder(jokers)(s[j], s[i]))
    {
      if Le(jokers, s[i], s[j]) && Le(jokers, s[j], s[i]) {
        LeAntisymmetric(jokers, s[i], s[j]);
      }
    }
  }

  /** Sum over the ranked hands of bid times rank, ranks counted from 1. */
  function Winnings(ranked: seq<Hand>): nat {
    if |ranked| == 0 then 0
    else Winnings(ranked[..|ranked| - 1]) + ranked[|ranked| - 1].bid * |ranked|
  }

  /** `part1` (jokers false) and `part2` (jokers true) after reading. */
  function TotalWinnings(jokers: bool, hands: seq<Hand>): nat {
    Winnings(Sorting.Sort(HandOrder(jokers), hands))
  }

  /** `CompareHands` answers `Less` exactly when the first hand is
      strictly below the second in the order the sort uses. */
  lemma LessIsStrict(jokers: bool, a: Hand, b: Hand)
    ensures CompareHands(jokers, a.cards, b.cards) == Less
      <==> HandOrder(jokers)(a, b) && !HandOrder(jokers)(b, a)
  {
    CompareHandsReverse(jokers, a.cards, b.cards);
  }

  /** When the hands can be arranged in strictly increasing order, the
      total is the winnings of that arrangement, whatever order the sort
      leaves hands in. */
  lemma TotalWinningsOfRanking(jokers: bool, hands: seq<Hand>, ranked: seq<Hand>)
    requires multiset(ranked) == multiset(hands)
    requires Sorting.StrictlyAscending(HandOrder(jokers), ranked)
    ensures TotalWinnings(jokers, hands) == Winnings(ranked)
  {
    var le := HandOrder(jokers);
    Sorting.StrictlyAscendingSorted(le, ranked);
    Sorting.SortedArrangementUnique(le, ranked, Sorting.Sort(le, hands));
  }

  // ---------------------------------------------------------------------
  // Reading the hands

  const InvalidCard := "invalid card"
  const IndexOutOfBounds := "index out of bounds: the len is 5 but the index is 5"

  /** The values a card can take: 2 to 14, with 1 instead of 11 for jokers. */
  predicate IsCardValue(v: nat, jokers: bool) {
    if jokers then v == Joker || (2 <= v <= 14 && v != 11) else 2 <= v <= 14
  }

  /** The card encoding of `read_part1` (jokers false) and `read_part2`
      (jokers true), which differ only in the value of 'J'. */
  function CardValue(c: char, jokers: bool): (r: Result<nat>)
    ensures r.Ok? ==> IsCardValue(r.value, jokers) && CardChar(r.value) == c
    ensures r.Err? ==> r.error == Panic(InvalidCard)
  {
    if '2' <= c <= '9' then Ok(c as nat - '2' as nat + 2)
    else if c == 'T' then Ok(10)
    else if c == 'J' then Ok(if jokers then Joker else 11)
    else if c == 'Q' then Ok(12)
    else if c == 'K' then Ok(13)
    else if c == 'A' then Ok(14)
    else Err(Panic(InvalidCard))
  }

  /** The character of a card value: the encoding is a bijection between
      the card characters and the card values. */
  function CardChar(v: nat): char
    requires 1 <= v <= 14
  {
    if 2 <= v <= 9 then ('2' as nat + v - 2) as char
    else if v == 10 then 'T'
    else if v == 1 || v == 11 then 'J'
    else if v == 12 then 'Q'
    else if v == 13 then 'K'
    else 'A'
  }

  lemma CardValueOfChar(v: nat, jokers: bool)
    requires IsCardValue(v, jokers)
    ensures CardValue(CardChar(v), jokers) == Ok(v)
  {
  }

  /** The loop over `hand_str.chars().enumerate()` from position `i` on:
      each character is decoded first and stored at `hand[i]` second, so an
      invalid card among the first six panics before a sixth card does. */
  function FillCards(s: string, jokers: bool, i: nat, hand: Cards): Result<Cards>
    decreases |s|
  {
    if |s| == 0 then Ok(hand)
    else
      var v :- CardValue(s[0], jokers);
      if i >= 5 then Err(Panic(IndexOutOfBounds))
      else FillCards(s[1..], jokers, i + 1, hand[i := v])
  }

  /** The card array read from the text before the space, starting from
      `[0u8; 5]`. */
  function ReadCards(s: string, jokers: bool): Result<Cards> {
    FillCards(s, jokers, 0, [0, 0, 0, 0, 0])
  }

  predicate AllCardChars(s: string, jokers: bool) {
    forall k :: 0 <= k < |s| ==> CardValue(s[k], jokers).Ok?
  }

  lemma {:induction false} FillCardsSpec(s: string, jokers: bool, i: nat, hand: Cards)
    requires i <= 5
    ensures var r := FillCards(s, jokers, i, hand);
      && (r.Ok? <==> i + |s| <= 5 && AllCardChars(s, jokers))
      && (r.Ok? ==> forall k :: 0 <= k < 5 ==>
            r.value[k] == if i <= k < i + |s| then CardValue(s[k - i], jokers).value else hand[k])
      && (r.Err? ==> r.error == Panic(
            if exists k :: 0 <= k < |s| && i + k <= 5 && CardValue(s[k], jokers).Err?
            then InvalidCard else IndexOutOfBounds))
    decreases |s|
  {
    if |s| > 0 && CardValue(s[0], jokers).Ok? && i < 5 {
      var v := CardValue(s[0], jokers).value;
      FillCardsSpec(s[1..], jokers, i + 1, hand[i := v]);
      assert forall k :: 1 <= k < |s| ==> s[1..][k - 1] == s[k];
      if AllCardChars(s[1..], jokers) {
        assert AllCardChars(s, jokers) by {
          forall k | 0 <= k < |s| ensures CardValue(s[k], jokers).Ok? {
            if k > 0 {
              assert s[k] == s[1..][k - 1];
            }
          }
        }
      }
      if k :| 0 <= k < |s| - 1 && i + 1 + k <= 5 && CardValue(s[1..][k], jokers).Err? {
        assert 0 <= k + 1 < |s| && i + k + 1 <= 5 && CardValue(s[k + 1], jokers).Err?;
      }
      if k :| 0 <= k < |s| && i + k <= 5 && CardValue(s[k], jokers).Err? {
        assert k > 0 && CardValue(s[1..][k - 1], jokers).Err?;
      }
    }
  }

  /** The cards read are the decoded characters, padded with zeros; more
      than five characters panic, and so does any other character. */
  lemma ReadCardsSpec(s: string, jokers: bool)
    ensures var r := ReadCards(s, jokers);
      && (r.Ok? <==> |s| <= 5 && AllCardChars(s, jokers))
      && (r.Ok? ==> forall k :: 0 <= k < 5 ==>
            r.value[k] == if k < |s| then CardValue(s[k], jokers).value else 0)
      && (r.Err? ==> r.error == Panic(
            if exists k :: 0 <= k < |s| && k <= 5 && CardValue(s[k], jokers).Err?
            then InvalidCard else IndexOutOfBounds))
  {
    FillCardsSpec(s, jokers, 0, [0, 0, 0, 0, 0]);
  }

  /** The bid, `u32::from_str`: decimal digits with an optional '+', below
      2^32. */
  function ParseBid(s: string): (r: Option<nat>)
    ensures r.Some? <==> Text.ParseNat(s).Some? && Text.ParseNat(s).value < 0x1_0000_0000
    ensures r.Some? ==> r.value == Text.ParseNat(s).value
  {
    match Text.ParseNat(s)
    case Some(n) => if n < 0x1_0000_0000 then Some(n) else None
    case None => None
  }

  /** One line: cards and bid around the first space. The missing space
      panics first, then an unreadable bid, then the cards. */
  function ReadHand(line: string, jokers: bool): Result<Hand> {
    match Text.SplitOnce(line, ' ')
    case None => Err(Panic(UnwrapNone))
    case Some((cardText, bidText)) =>
      match ParseBid(bidText)
      case None => Err(Panic(UnwrapErr))
      case Some(bid) =>
        var cards :- ReadCards(cardText, jokers);
        Ok(Hand(cards, bid))
  }

  /** A line reads as a hand exactly when it splits at a space into cards
      that read and a bid that parses; otherwise the first failing step
      decides the panic. */
  lemma ReadHandSpec(line: string, jokers: bool)
    ensures var r := ReadHand(line, jokers);
      && (r.Ok? <==> (Text.SplitOnce(line, ' ').Some?
        && ParseBid(Text.SplitOnce(line, ' ').value.1).Some?
        && ReadCards(Text.SplitOnce(line, ' ').value.0, jokers).Ok?))
      && (r.Ok? ==> (r.value.bid == ParseBid(Text.SplitOnce(line, ' ').value.1).value
        && r.value.cards == ReadCards(Text.SplitOnce(line, ' ').value.0, jokers).value))
      && (Text.SplitOnce(line, ' ').None? ==> r == Err(Panic(UnwrapNone)))
      && (Text.SplitOnce(line, ' ').Some? && ParseBid(Text.SplitOnce(line, ' ').value.1).None?
        ==> r == Err(Panic(UnwrapErr)))
  {
  }

  /** Every line read in order; the first line that panics ends it. */
  function ReadLines(lines: seq<string>, jokers: bool): Result<seq<Hand>> {
    MapAll(line => ReadHand(line, jokers), lines)
  }

  /** `read_part1` (jokers false) and `read_part2` (jokers true). */
  function Read(input: string, jokers: bool): Result<seq<Hand>> {
    ReadLines(Text.Lines(input), jokers)
  }

  /** `part1(read_part1(input))`. */
  function Part1(input: string): Result<nat> {
    var hands :- Read(input, false);
    Ok(TotalWinnings(false, hands))
  }

  /** `part2(read_part2(input))`. */
  function Part2(input: string): Result<nat> {
    var hands :- Read(input, true);
    Ok(TotalWinnings(true, hands))
  }

  // ---------------------------------------------------------------------
  // Writing hands back

  /** A hand whose cards all have a character and whose bid fits in `u32`. */
  predicate Writable(h: Hand, jokers: bool) {
    (forall k :: 0 <= k < 5 ==> IsCardValue(h.cards[k], jokers)) && h.bid < 0x1_0000_0000
  }

  function ShowCards(cards: seq<nat>): (s: string)
    requires forall k :: 0 <= k < |cards| ==> 1 <= cards[k] <= 14
    ensures |s| == |cards|
    ensures forall k :: 0 <= k < |cards| ==> s[k] == CardChar(cards[k])
  {
    if |cards| == 0 then "" else [CardChar(cards[0])] + ShowCards(cards[1..])
  }

  function ShowHand(h: Hand, jokers: bool): string
    requires Writable(h, jokers)
  {
    ShowCards(h.cards) + " " + Text.ShowNat(h.bid)
  }

  /** Reading a written hand gives the hand back. */
  lemma ReadShowHand(h: Hand, jokers: bool)
    requires Writable(h, jokers)
    ensures ReadHand(ShowHand(h, jokers), jokers) == Ok(h)
  {
    var cardText := ShowCards(h.cards);
    var line := ShowHand(h, jokers);
    assert line == cardText + [' '] + Text.ShowNat(h.bid);
    assert Text.SplitOnce(line, ' ') == Some((cardText, Text.ShowNat(h.bid))) by {
      assert line[|cardText|] == ' ' && line[..|cardText|] == cardText;
      assert ' ' !in cardText;
      Text.FindFirst(line, ' ', |cardText|);
      assert line[|cardText| + 1..] == Text.ShowNat(h.bid);
    }
    Text.ParseShowNat(h.bid);
    ReadCardsSpec(cardText, jokers);
    assert AllCardChars(cardText, jokers);
    assert ReadCards(cardText, jokers).value == h.cards;
  }

  /** Reading the written lines of several hands gives them back. */
  lemma ReadShowHands(hands: seq<Hand>, jokers: bool, lines: seq<string>)
    requires forall k :: 0 <= k < |hands| ==> Writable(hands[k], jokers)
    requires |lines| == |hands| && forall k :: 0 <= k < |hands| ==> lines[k] == ShowHand(hands[k], jokers)
    ensures Read(Text.Unlines(lines), jokers) == Ok(hands)
  {
    ShownLines(hands, jokers, lines);
    ReadLinesBack(lines, jokers, hands);
  }

  /** Single lines that each read as the hand at their position. */
  predicate ReadsAs(lines: seq<string>, jokers: bool, hands: seq<Hand>) {
    && |lines| == |hands|
    && (forall k :: 0 <= k < |lines| ==> Text.IsLine(lines[k]))
    && (forall k :: 0 <= k < |lines| ==> ReadHand(lines[k], jokers) == Ok(hands[k]))
  }

  /** Lines that each read as a hand, joined, read back as those hands. */
  lemma ReadLinesBack(lines: seq<string>, jokers: bool, hands: seq<Hand>)
    requires ReadsAs(lines, jokers, hands)
    ensures Read(Text.Unlines(lines), jokers) == Ok(hands)
  {
    Text.LinesUnlines(lines);
    ReadLinesOk(lines, jokers, hands);
  }

  lemma ShownLines(hands: seq<Hand>, jokers: bool, lines: seq<string>)
    requires forall k :: 0 <= k < |hands| ==> Writable(hands[k], jokers)
    requires |lines| == |hands| && forall k :: 0 <= k < |hands| ==> lines[k] == ShowHand(hands[k], jokers)
    ensures ReadsAs(lines, jokers, hands)
  {
    forall k | 0 <= k < |lines|
      ensures Text.IsLine(lines[k]) && ReadHand(lines[k], jokers) == Ok(hands[k])
    {
      ReadShowHand(hands[k], jokers);
      ShowHandIsLine(hands[k], jokers);
    }
  }

  lemma ReadLinesOk(lines: seq<string>, jokers: bool, hands: seq<Hand>)
    requires |lines| == |hands| && forall k :: 0 <= k < |lines| ==> ReadHand(lines[k], jokers) == Ok(hands[k])
    ensures ReadLines(lines, jokers) == Ok(hands)
  {
    MapAllOk(line => ReadHand(line, jokers), lines, hands);
  }

  lemma ShowHandIsLine(h: Hand, jokers: bool)
    requires Writable(h, jokers)
    ensures Text.IsLine(ShowHand(h, jokers))
  {
    var s := ShowHand(h, jokers);
    assert forall k :: 0 <= k < |s| ==> s[k] != '\n' && s[k] != '\r' by {
      var digits := Text.ShowNat(h.bid);
      assert s == ShowCards(h.cards) + " " + digits;
      forall k | 0 <= k < |s| ensures s[k] != '\n' && s[k] != '\r' {
        if k > 5 {
          assert s[k] == digits[k - 6];
        }
      }
    }
  }

  // ---------------------------------------------------------------------
  // The puzzle's example

  /** The example's lines, each followed by a line feed. */
  const SampleInput := Text.Unlines(SampleLines)

  /** The tally of five cards, spelled out as five bumps. */
  lemma TallyOfFive(cards: Cards)
    ensures TallyOf(cards) == Bump(Bump(Bump(Bump(Bump([], cards[0]), cards[1]), cards[2]), cards[3]), cards[4])
  {
    var c4, c3, c2, c1 := cards[..4], cards[..3], cards[..2], cards[..1];
    assert c4[..3] == c3 && c3[..2] == c2 && c2[..1] == c1 && c1[..0] == [];
    assert TallyOf(c1) == Bump([], cards[0]);
    assert TallyOf(c2) == Bump(TallyOf(c1), cards[1]);
    assert TallyOf(c3) == Bump(TallyOf(c2), cards[2]);
    assert TallyOf(c4) == Bump(TallyOf(c3), cards[3]);
  }

  /** The type read off a tally that is already known. */
  lemma TypeOfTally(jokers: bool, cards: Cards, t: Tally, vs: seq<nat>, jacks: Option<nat>)
    requires TallyOf(cards) == t && Values(t) == vs && Lookup(t, Joker) == jacks
    ensures Ok(TypeOf(jokers, cards)) == if jokers then ClassifyWithJokers(vs, jacks) else Classify(vs)
  {
    if jokers {
      JokerTypTotal(cards);
      assert JokerTyp(cards) == ClassifyWithJokers(vs, jacks);
    } else {
      TypTotal(cards);
      assert Typ(cards) == Classify(vs);
    }
  }

  lemma Tally32T3K(cards: Cards)
    requires cards == [3, 2, 10, 3, 13]
    ensures TallyOf(cards) == [(3, 2), (2, 1), (10, 1), (13, 1)]
  {
    TallyOfFive(cards);
    assert Bump([], 3) == [(3, 1)];
    assert Bump([(3, 1)], 2) == [(3, 1), (2, 1)];
    assert Bump([(3, 1), (2, 1)], 10) == [(3, 1), (2, 1), (10, 1)];
    assert Bump([(3, 1), (2, 1), (10, 1)], 3) == [(3, 2), (2, 1), (10, 1)];
    assert Bump([(3, 2), (2, 1), (10, 1)], 13) == [(3, 2), (2, 1), (10, 1), (13, 1)];
  }

  /** No jokers among these cards: both parts agree. */
  lemma Sample32T3K(cards: Cards)
    requires cards == [3, 2, 10, 3, 13]
    ensures TypeOf(false, cards) == OnePair && TypeOf(true, cards) == OnePair
  {
    Tally32T3K(cards);
    TypeOfTally(false, cards, [(3, 2), (2, 1), (10, 1), (13, 1)], [2, 1, 1, 1], None);
    TypeOfTally(true, cards, [(3, 2), (2, 1), (10, 1), (13, 1)], [2, 1, 1, 1], None);
  }

  lemma TallyT55J5(cards: Cards)
    requires cards == [10, 5, 5, 11, 5]
    ensures TallyOf(cards) == [(10, 1), (5, 3), (11, 1)]
  {
    TallyOfFive(cards);
    assert Bump([], 10) == [(10, 1)];
    assert Bump([(10, 1)], 5) == [(10, 1), (5, 1)];
    assert Bump([(10, 1), (5, 1)], 5) == [(10, 1), (5, 2)];
    assert Bump([(10, 1), (5, 2)], 11) == [(10, 1), (5, 2), (11, 1)];
    assert Bump([(10, 1), (5, 2), (11, 1)], 5) == [(10, 1), (5, 3), (11, 1)];
  }

  lemma SampleT55J5(cards: Cards)
    requires cards == [10, 5, 5, 11, 5]
    ensures TypeOf(false, cards) == ThreeOfAKind
  {
    TallyT55J5(cards);
    TypeOfTally(false, cards, [(10, 1), (5, 3), (11, 1)], [1, 3, 1], None);
  }

  lemma TallyT55J5Jokers(cards: Cards)
    requires cards == [10, 5, 5, 1, 5]
    ensures TallyOf(cards) == [(10, 1), (5, 3), (1, 1)]
  {
    TallyOfFive(cards);
    assert Bump([], 10) == [(10, 1)];
    assert Bump([(10, 1)], 5) == [(10, 1), (5, 1)];
    assert Bump([(10, 1), (5, 1)], 5) == [(10, 1), (5, 2)];
    assert Bump([(10, 1), (5, 2)], 1) == [(10, 1), (5, 2), (1, 1)];
    assert Bump([(10, 1), (5, 2), (1, 1)], 5) == [(10, 1), (5, 3), (1, 1)];
  }

  lemma SampleT55J5Jokers(cards: Cards)
    requires cards == [10, 5, 5, 1, 5]
    ensures TypeOf(true, cards) == FourOfAKind
  {
    TallyT55J5Jokers(cards);
    TypeOfTally(true, cards, [(10, 1), (5, 3), (1, 1)], [1, 3, 1], Some(1));
  }

  lemma TallyKK677(cards: Cards)
    requires cards == [13, 13, 6, 7, 7]
    ensures TallyOf(cards) == [(13, 2), (6, 1), (7, 2)]
  {
    TallyOfFive(cards);
    assert Bump([], 13) == [(13, 1)];
    assert Bump([(13, 1)], 13) == [(13, 2)];
    assert Bump([(13, 2)], 6) == [(13, 2), (6, 1)];
    assert Bump([(13, 2), (6, 1)], 7) == [(13, 2), (6, 1), (7, 1)];
    assert Bump([(13, 2), (6, 1), (7, 1)], 7) == [(13, 2), (6, 1), (7, 2)];
  }

  /** No jokers among these cards: both parts agree. */
  lemma SampleKK677(cards: Cards)
    requires cards == [13, 13, 6, 7, 7]
    ensures TypeOf(false, cards) == TwoPair && TypeOf(true, cards) == TwoPair
  {
    TallyKK677(cards);
    TypeOfTally(false, cards, [(13, 2), (6, 1), (7, 2)], [2, 1, 2], None);
    TypeOfTally(true, cards, [(13, 2), (6, 1), (7, 2)], [2, 1, 2], None);
  }

  lemma TallyKTJJT(cards: Cards)
    requires cards == [13, 10, 11, 11, 10]
    ensures TallyOf(cards) == [(13, 1), (10, 2), (11, 2)]
  {
    TallyOfFive(cards);
    assert Bump([], 13) == [(13, 1)];
    assert Bump([(13, 1)], 10) == [(13, 1), (10, 1)];
    assert Bump([(13, 1), (10, 1)], 11) == [(13, 1), (10, 1), (11, 1)];
    assert Bump([(13, 1), (10, 1), (11, 1)], 11) == [(13, 1), (10, 1), (11, 2)];
    assert Bump([(13, 1), (10, 1), (11, 2)], 10) == [(13, 1), (10, 2), (11, 2)];
  }

  lemma SampleKTJJT(cards: Cards)
    requires cards == [13, 10, 11, 11, 10]
    ensures TypeOf(false, cards) == TwoPair
  {
    TallyKTJJT(cards);
    TypeOfTally(false, cards, [(13, 1), (10, 2), (11, 2)], [1, 2, 2], None);
  }

  lemma TallyKTJJTJokers(cards: Cards)
    requires cards == [13, 10, 1, 1, 10]
    ensures TallyOf(cards) == [(13, 1), (10, 2), (1, 2)]
  {
    TallyOfFive(cards);
    assert Bump([], 13) == [(13, 1)];
    assert Bump([(13, 1)], 10) == [(13, 1), (10, 1)];
    assert Bump([(13, 1), (10, 1)], 1) == [(13, 1), (10, 1), (1, 1)];
    assert Bump([(13, 1), (10, 1), (1, 1)], 1) == [(13, 1), (10, 1), (1, 2)];
    assert Bump([(13, 1), (10, 1), (1, 2)], 10) == [(13, 1), (10, 2), (1, 2)];
  }

  lemma SampleKTJJTJokers(cards: Cards)
    requires cards == [13, 10, 1, 1, 10]
    ensures TypeOf(true, cards) == FourOfAKind
  {
    TallyKTJJTJokers(cards);
    TypeOfTally(true, cards, [(13, 1), (10, 2), (1, 2)], [1, 2, 2], Some(2));
  }

  lemma TallyQQQJA(cards: Cards)
    requires cards == [12, 12, 12, 11, 14]
    ensures TallyOf(cards) == [(12, 3), (11, 1), (14, 1)]
  {
    TallyOfFive(cards);
    assert Bump([], 12) == [(12, 1)];
    assert Bump([(12, 1)], 12) == [(12, 2)];
    assert Bump([(12, 2)], 12) == [(12, 3)];
    assert Bump([(12, 3)], 11) == [(12, 3), (11, 1)];
    assert Bump([(12, 3), (11, 1)], 14) == [(12, 3), (11, 1), (14, 1)];
  }

  lemma SampleQQQJA(cards: Cards)
    requires cards == [12, 12, 12, 11, 14]
    ensures TypeOf(false, cards) == ThreeOfAKind
  {
    TallyQQQJA(cards);
    TypeOfTally(false, cards, [(12, 3), (11, 1), (14, 1)], [3, 1, 1], None);
  }

  lemma TallyQQQJAJokers(cards: Cards)
    requires cards == [12, 12, 12, 1, 14]
    ensures TallyOf(cards) == [(12, 3), (1, 1), (14, 1)]
  {
    TallyOfFive(cards);
    assert Bump([], 12) == [(12, 1)];
    assert Bump([(12, 1)], 12) == [(12, 2)];
    assert Bump([(12, 2)], 12) == [(12, 3)];
    assert Bump([(12, 3)], 1) == [(12, 3), (1, 1)];
    assert Bump([(12, 3), (1, 1)], 14) == [(12, 3), (1, 1), (14, 1)];
  }

  lemma SampleQQQJAJokers(cards: Cards)
    requires cards == [12, 12, 12, 1, 14]
    ensures TypeOf(true, cards) == FourOfAKind
  {
    TallyQQQJAJokers(cards);
    TypeOfTally(true, cards, [(12, 3), (1, 1), (14, 1)], [3, 1, 1], Some(1));
  }

  const SampleLines := ["32T3K 765", "T55J5 684", "KK677 28", "KTJJT 220", "QQQJA 483"]

  /** The example as read with the given value of 'J'. */
  function SampleHands(j: nat): seq<Hand> {
    [Hand([3, 2, 10, 3, 13], 765), Hand([10, 5, 5, j, 5], 684), Hand([13, 13, 6, 7, 7], 28),
     Hand([13, 10, j, j, 10], 220), Hand([12, 12, 12, j, 14], 483)]
  }

  /** Each line of the example is the written form of its hand. */
  lemma SampleLinesShown(jokers: bool, j: nat, hands: seq<Hand>)
    requires j == (if jokers then Joker else 11) && IsSample(hands, j)
    ensures forall k :: 0 <= k < |hands| ==> Writable(hands[k], jokers)
    ensures |SampleLines| == |hands|
    ensures forall k :: 0 <= k < |hands| ==> SampleLines[k] == ShowHand(hands[k], jokers)
  {
    SampleLine0(jokers, j, hands[0], SampleLines[0]);
    SampleLine1(jokers, j, hands[1], SampleLines[1]);
    SampleLine2(jokers, j, hands[2], SampleLines[2]);
    SampleLine3(jokers, j, hands[3], SampleLines[3]);
    SampleLine4(jokers, j, hands[4], SampleLines[4]);
    FiveLines(SampleLines, hands, jokers);
  }

  lemma FiveLines(lines: seq<string>, hands: seq<Hand>, jokers: bool)
    requires |lines| == 5 && |hands| == 5
    requires forall k :: 0 <= k < 5 ==> Writable(hands[k], jokers)
    requires lines[0] == ShowHand(hands[0], jokers) && lines[1] == ShowHand(hands[1], jokers)
    requires lines[2] == ShowHand(hands[2], jokers) && lines[3] == ShowHand(hands[3], jokers)
    requires lines[4] == ShowHand(hands[4], jokers)
    ensures forall k :: 0 <= k < 5 ==> lines[k] == ShowHand(hands[k], jokers)
  {
  }

  lemma SampleLine0(jokers: bool, j: nat, h: Hand, line: string)
    requires j == (if jokers then Joker else 11)
    requires h == Hand([3, 2, 10, 3, 13], 765) && line == "32T3K 765"
    ensures Writable(h, jokers) && ShowHand(h, jokers) == line
  {
    assert ShowCards(h.cards) == "32T3K";
    assert Text.ShowNat(765) == "765";
  }

  lemma SampleLine1(jokers: bool, j: nat, h: Hand, line: string)
    requires j == (if jokers then Joker else 11)
    requires h == Hand([10, 5, 5, j, 5], 684) && line == "T55J5 684"
    ensures Writable(h, jokers) && ShowHand(h, jokers) == line
  {
    assert ShowCards(h.cards) == "T55J5";
    assert Text.ShowNat(684) == "684";
  }

  lemma SampleLine2(jokers: bool, j: nat, h: Hand, line: string)
    requires j == (if jokers then Joker else 11)
    requires h == Hand([13, 13, 6, 7, 7], 28) && line == "KK677 28"
    ensures Writable(h, jokers) && ShowHand(h, jokers) == line
  {
    assert ShowCards(h.cards) == "KK677";
    assert Text.ShowNat(28) == "28";
  }

  lemma SampleLine3(jokers: bool, j: nat, h: Hand, line: string)
    requires j == (if jokers then Joker else 11)
    requires h == Hand([13, 10, j, j, 10], 220) && line == "KTJJT 220"
    ensures Writable(h, jokers) && ShowHand(h, jokers) == line
  {
    assert ShowCards(h.cards) == "KTJJT";
    assert Text.ShowNat(220) == "220";
  }

  lemma SampleLine4(jokers: bool, j: nat, h: Hand, line: string)
    requires j == (if jokers then Joker else 11)
    requires h == Hand([12, 12, 12, j, 14], 483) && line == "QQQJA 483"
    ensures Writable(h, jokers) && ShowHand(h, jokers) == line
  {
    assert ShowCards(h.cards) == "QQQJA";
    assert Text.ShowNat(483) == "483";
  }

  lemma SampleRead(jokers: bool, hands: seq<Hand>)
    requires IsSample(hands, if jokers then Joker else 11)
    ensures Read(SampleInput, jokers) == Ok(hands)
  {
    SampleLinesShown(jokers, if jokers then Joker else 11, hands);
    ReadShowHands(hands, jokers, SampleLines);
  }


  lemma LessByType(jokers: bool, a: Cards, b: Cards, ta: HandType, tb: HandType)
    requires TypeOf(jokers, a) == ta && TypeOf(jokers, b) == tb && Strength(ta) < Strength(tb)
    ensures CompareHands(jokers, a, b) == Less
  {
  }

  lemma LessByCards(jokers: bool, a: Cards, b: Cards, t: HandType)
    requires TypeOf(jokers, a) == t && TypeOf(jokers, b) == t && LexCompare(a, b) == Less
    ensures CompareHands(jokers, a, b) == Less
  {
  }

  /** Ranked without jokers: 32T3K, KTJJT, KK677, T55J5, QQQJA. */
  lemma SampleOrder(a: Cards, b: Cards, c: Cards, d: Cards, e: Cards)
    requires a == [3, 2, 10, 3, 13] && b == [13, 10, 11, 11, 10] && c == [13, 13, 6, 7, 7]
    requires d == [10, 5, 5, 11, 5] && e == [12, 12, 12, 11, 14]
    ensures CompareHands(false, a, b) == Less && CompareHands(false, b, c) == Less
    ensures CompareHands(false, c, d) == Less && CompareHands(false, d, e) == Less
  {
    Sample32T3K(a);
    SampleKTJJT(b);
    SampleKK677(c);
    SampleT55J5(d);
    SampleQQQJA(e);
    LessByType(false, a, b, OnePair, TwoPair);
    LessByCards(false, b, c, TwoPair);
    LessByType(false, c, d, TwoPair, ThreeOfAKind);
    LessByCards(false, d, e, ThreeOfAKind);
  }

  /** Ranked with jokers: 32T3K, KK677, T55J5, QQQJA, KTJJT. */
  lemma SampleOrderJokers(a: Cards, b: Cards, c: Cards, d: Cards, e: Cards)
    requires a == [3, 2, 10, 3, 13] && b == [13, 13, 6, 7, 7] && c == [10, 5, 5, 1, 5]
    requires d == [12, 12, 12, 1, 14] && e == [13, 10, 1, 1, 10]
    ensures CompareHands(true, a, b) == Less && CompareHands(true, b, c) == Less
    ensures CompareHands(true, c, d) == Less && CompareHands(true, d, e) == Less
  {
    Sample32T3K(a);
    SampleKK677(b);
    SampleT55J5Jokers(c);
    SampleQQQJAJokers(d);
    SampleKTJJTJokers(e);
    LessByType(true, a, b, OnePair, TwoPair);
    LessByType(true, b, c, TwoPair, FourOfAKind);
    LessByCards(true, c, d, FourOfAKind);
    LessByCards(true, d, e, FourOfAKind);
  }

  lemma WinningsOfFive(r: seq<Hand>)
    requires |r| == 5
    ensures Winnings(r) == r[0].bid * 1 + r[1].bid * 2 + r[2].bid * 3 + r[3].bid * 4 + r[4].bid * 5
  {
    var r4, r3, r2, r1 := r[..4], r[..3], r[..2], r[..1];
    assert r4[..3] == r3 && r3[..2] == r2 && r2[..1] == r1 && r1[..0] == [];
    assert Winnings(r1) == r[0].bid;
    assert Winnings(r2) == Winnings(r1) + r[1].bid * 2;
    assert Winnings(r3) == Winnings(r2) + r[2].bid * 3;
    assert Winnings(r4) == Winnings(r3) + r[3].bid * 4;
  }

  lemma AscendingFive(jokers: bool, ranked: seq<Hand>)
    requires |ranked| == 5
    requires CompareHands(jokers, ranked[0].cards, ranked[1].cards) == Less
    requires CompareHands(jokers, ranked[1].cards, ranked[2].cards) == Less
    requires CompareHands(jokers, ranked[2].cards, ranked[3].cards) == Less
    requires CompareHands(jokers, ranked[3].cards, ranked[4].cards) == Less
    ensures Sorting.StrictlyAscending(HandOrder(jokers), ranked)
  {
    LessIsStrict(jokers, ranked[0], ranked[1]);
    LessIsStrict(jokers, ranked[1], ranked[2]);
    LessIsStrict(jokers, ranked[2], ranked[3]);
    LessIsStrict(jokers, ranked[3], ranked[4]);
  }

  lemma PartsOfHands(input: string, jokers: bool, hands: seq<Hand>)
    requires Read(input, jokers) == Ok(hands)
    ensures (if jokers then Part2(input) else Part1(input)) == Ok(TotalWinnings(jokers, hands))
  {
  }

  lemma SamplePart1()
    ensures Part1(SampleInput) == Ok(6440)
  {
    var hands := SampleHands(11);
    SampleRead(false, hands);
    SampleTotal(hands);
    PartsOfHands(SampleInput, false, hands);
  }

  lemma SamplePart2()
    ensures Part2(SampleInput) == Ok(5905)
  {
    var hands := SampleHands(Joker);
    SampleRead(true, hands);
    SampleTotalJokers(hands);
    PartsOfHands(SampleInput, true, hands);
  }

  /** The example's hands, position by position. */
  predicate IsSample(hands: seq<Hand>, j: nat) {
    && |hands| == 5
    && hands[0] == Hand([3, 2, 10, 3, 13], 765)
    && hands[1] == Hand([10, 5, 5, j, 5], 684)
    && hands[2] == Hand([13, 13, 6, 7, 7], 28)
    && hands[3] == Hand([13, 10, j, j, 10], 220)
    && hands[4] == Hand([12, 12, 12, j, 14], 483)
  }

  lemma SampleTotal(hands: seq<Hand>)
    requires IsSample(hands, 11)
    ensures TotalWinnings(false, hands) == 6440
  {
    var ranked: seq<Hand> := hands[1 := hands[3]][3 := hands[1]];
    SwapPermutes(hands, 1, 3);
    SampleOrder(ranked[0].cards, ranked[1].cards, ranked[2].cards, ranked[3].cards, ranked[4].cards);
    RankingOfFive(false, hands, ranked, 6440);
  }

  lemma SampleTotalJokers(hands: seq<Hand>)
    requires IsSample(hands, Joker)
    ensures TotalWinnings(true, hands) == 5905
  {
    var once: seq<Hand> := hands[1 := hands[2]][2 := hands[1]];
    var ranked: seq<Hand> := once[3 := once[4]][4 := once[3]];
    SwapPermutes(hands, 1, 2);
    SwapPermutes(once, 3, 4);
    SampleOrderJokers(ranked[0].cards, ranked[1].cards, ranked[2].cards, ranked[3].cards, ranked[4].cards);
    RankingOfFive(true, hands, ranked, 5905);
  }

  /** Exchanging two entries keeps the multiset. */
  lemma SwapPermutes<T>(s: seq<T>, i: nat, j: nat)
    requires i < |s| && j < |s|
    ensures multiset(s[i := s[j]][j := s[i]]) == multiset(s)
  {
  }

  lemma RankingOfFive(jokers: bool, hands: seq<Hand>, ranked: seq<Hand>, total: nat)
    requires |hands| == 5 && |ranked| == 5 && multiset(ranked) == multiset(hands)
    requires CompareHands(jokers, ranked[0].cards, ranked[1].cards) == Less
    requires CompareHands(jokers, ranked[1].cards, ranked[2].cards) == Less
    requires CompareHands(jokers, ranked[2].cards, ranked[3].cards) == Less
    requires CompareHands(jokers, ranked[3].cards, ranked[4].cards) == Less
    requires ranked[0].bid * 1 + ranked[1].bid * 2 + ranked[2].bid * 3 + ranked[3].bid * 4 + ranked[4].bid * 5 == total
    ensures TotalWinnings(jokers, hands) == total
  {
    AscendingFive(jokers, ranked);
    TotalWinningsOfRanking(jokers, hands, ranked);
    WinningsOfFive(ranked);
  }
}
