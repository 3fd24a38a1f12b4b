/** Day 4, "Scratchcards": each card lists some winning numbers and the
    numbers you have.  Part 1 scores a card 1 point for its first match and
    doubles the score for each further match; part 2 lets a card with `n`
    matches win one copy of each of the next `n` cards and counts every
    card you end up with. */
module Day04 {
  import opened Wrappers
  import Text
  import Seqs

  /** `Card`: the winning numbers (a `HashSet<u8>`) and your numbers. */
  datatype Card = Card(winning: set<nat>, yours: seq<nat>)

  // ---------------------------------------------------------------------
  // Matches and points

  /** How many entries of `yours`, each repeat counted again, are in
      `winning`. */
  function Matching(winning: set<nat>, yours: seq<nat>): (n: nat)
    ensures n <= |yours|
  {
    MatchingFrom(winning, yours, 0)
  }

  /** The same count over the entries from index `i` on. */
  function MatchingFrom(winning: set<nat>, yours: seq<nat>, i: nat): (n: nat)
    requires i <= |yours|
    ensures n <= |yours| - i
    decreases |yours| - i
  {
    if i == |yours| then 0
    else (if yours[i] in winning then 1 else 0) + MatchingFrom(winning, yours, i + 1)
  }

  lemma {:induction false} MatchingFromDrop(winning: set<nat>, yours: seq<nat>, i: nat)
    requires i <= |yours|
    ensures MatchingFrom(winning, yours, i) == Matching(winning, yours[i..])
    decreases |yours| - i
  {
    if i < |yours| {
      MatchingFromDrop(winning, yours, i + 1);
      MatchingFromDrop(winning, yours[i..], 1);
      assert yours[i..][1..] == yours[i + 1..];
    }
  }

  /** The first number, then the rest. */
  lemma MatchingCons(winning: set<nat>, yours: seq<nat>)
    requires |yours| > 0
    ensures Matching(winning, yours) == (if yours[0] in winning then 1 else 0) + Matching(winning, yours[1..])
  {
    MatchingFromDrop(winning, yours, 1);
  }

  /** No match exactly when none of your numbers wins; all match exactly
      when every one of them wins. */
  lemma {:induction false} MatchingSpec(winning: set<nat>, yours: seq<nat>)
    ensures Matching(winning, yours) == 0 <==> forall k :: 0 <= k < |yours| ==> yours[k] !in winning
    ensures Matching(winning, yours) == |yours| <==> forall k :: 0 <= k < |yours| ==> yours[k] in winning
  {
    if |yours| > 0 {
      MatchingCons(winning, yours);
      MatchingSpec(winning, yours[1..]);
      assert forall k :: 1 <= k < |yours| ==> yours[k] == yours[1..][k - 1];
    }
  }

  /** `Card::num_matching`. */
  function NumMatching(card: Card): nat {
    Matching(card.winning, card.yours)
  }

  lemma {:induction false} MatchingAppend(winning: set<nat>, a: seq<nat>, b: seq<nat>)
    ensures Matching(winning, a + b) == Matching(winning, a) + Matching(winning, b)
  {
    if |a| == 0 {
      assert a + b == b;
    } else {
      assert (a + b)[0] == a[0];
      assert (a + b)[1..] == a[1..] + b;
      MatchingCons(winning, a);
      MatchingCons(winning, a + b);
      MatchingAppend(winning, a[1..], b);
    }
  }

  /** The count does not depend on the order of your numbers. */
  lemma {:induction false} MatchingPermuted(winning: set<nat>, a: seq<nat>, b: seq<nat>)
    requires multiset(a) == multiset(b)
    ensures Matching(winning, a) == Matching(winning, b)
    decreases |a|
  {
    if |a| == 0 {
      assert |b| == |multiset(b)| == 0;
    } else {
      assert a[0] in multiset(b);
      var i :| 0 <= i < |b| && b[i] == a[0];
      assert a == [a[0]] + a[1..];
      Seqs.MultisetRemoveAt(b, i);
      MatchingPermuted(winning, a[1..], b[..i] + b[i + 1..]);
      MatchingRemoveAt(winning, b, i);
      MatchingCons(winning, a);
    }
  }

  lemma MatchingRemoveAt(winning: set<nat>, b: seq<nat>, i: nat)
    requires i < |b|
    ensures Matching(winning, b) == (if b[i] in winning then 1 else 0) + Matching(winning, b[..i] + b[i + 1..])
  {
    assert b == b[..i] + ([b[i]] + b[i + 1..]);
    MatchingAppend(winning, b[..i], [b[i]] + b[i + 1..]);
    MatchingAppend(winning, b[..i], b[i + 1..]);
    MatchingCons(winning, [b[i]] + b[i + 1..]);
    assert ([b[i]] + b[i + 1..])[1..] == b[i + 1..];
  }

  function Pow2(e: nat): (p: nat)
    ensures p >= 1
  {
    if e == 0 then 1 else 2 * Pow2(e - 1)
  }

  /** `Card::score`: nothing without a match, else 2 to the power of one
      less than the number of matches. */
  function Score(card: Card): (s: int)
    ensures s >= 0
    ensures s == 0 <==> NumMatching(card) == 0
  {
    Points(NumMatching(card))
  }

  function Points(count: nat): (s: int)
    ensures s >= 0
    ensures s == 0 <==> count == 0
  {
    if count == 0 then 0 else Pow2(count - 1)
  }

  /** One more number of yours: a winning one turns no points into 1 point
      and doubles any other score; a losing one changes nothing. */
  lemma ScoreOfOneMore(winning: set<nat>, yours: seq<nat>, x: nat)
    ensures x in winning && Score(Card(winning, yours)) == 0 ==> Score(Card(winning, yours + [x])) == 1
    ensures x in winning && Score(Card(winning, yours)) > 0 ==>
      Score(Card(winning, yours + [x])) == 2 * Score(Card(winning, yours))
    ensures x !in winning ==> Score(Card(winning, yours + [x])) == Score(Card(winning, yours))
  {
    MatchingAppend(winning, yours, [x]);
    assert Matching(winning, [x]) == (if x in winning then 1 else 0);
  }

  // ---------------------------------------------------------------------
  // Reading the cards

  /** `str::parse::<u8>().unwrap()`. */
  function ReadByte(word: string): Result<nat> {
    match Text.ParseNat(word)
    case Some(n) => if n < 256 then Ok(n) else Err(Panic(UnwrapErr))
    case None => Err(Panic(UnwrapErr))
  }

  /** A number is read back exactly when it fits in a byte. */
  lemma ReadShownByte(n: nat)
    ensures n < 256 ==> ReadByte(Text.ShowNat(n)) == Ok(n)
    ensures n >= 256 ==> ReadByte(Text.ShowNat(n)) == Err(Panic(UnwrapErr))
  {
    Text.ParseShowNat(n);
  }

  /** The whitespace-separated numbers of one half of a card. */
  function ReadNumbers(s: string): Result<seq<nat>> {
    MapAll(ReadByte, Text.SplitWhitespace(s))
  }

  /** One line of `Data::from_str`: whatever precedes the colon is ignored,
      the rest is split at the bar; a missing colon or bar, or a number
      that is not a byte, panics. */
  function ReadCard(line: string): Result<Card> {
    match Text.SplitOnce(line, ':')
    case None => Err(Panic(UnwrapNone))
    case Some((_, numbers)) =>
      match Text.SplitOnce(numbers, '|')
      case None => Err(Panic(UnwrapNone))
      case Some((winning, yours)) =>
        var w :- ReadNumbers(winning);
        var y :- ReadNumbers(yours);
        Ok(Card((set x | x in w), y))
  }

  /** `Data::from_str`: every line a card. */
  function Read(input: string): Result<seq<Card>> {
    MapAll(ReadCard, Text.Lines(input))
  }

  // ---------------------------------------------------------------------
  // Writing the cards

  function ShowNumbers(xs: seq<nat>): (ws: seq<string>)
    ensures |ws| == |xs| && forall k :: 0 <= k < |xs| ==> ws[k] == Text.ShowNat(xs[k])
  {
    if |xs| == 0 then [] else [Text.ShowNat(xs[0])] + ShowNumbers(xs[1..])
  }

  /** "Card <id>: <winning> | <yours>". */
  function ShowCard(id: nat, winning: seq<nat>, yours: seq<nat>): string {
    CardHead(id) + ":" + (WinningText(winning) + "|" + YoursText(yours))
  }

  function CardHead(id: nat): string {
    "Card " + Text.ShowNat(id)
  }

  function WinningText(winning: seq<nat>): string {
    " " + Text.Unwords(ShowNumbers(winning)) + " "
  }

  function YoursText(yours: seq<nat>): string {
    " " + Text.Unwords(ShowNumbers(yours))
  }

  predicate Bytes(xs: seq<nat>) {
    forall k :: 0 <= k < |xs| ==> xs[k] < 256
  }

  /** The card a written line stands for. */
  function CardOf(winning: seq<nat>, yours: seq<nat>): Card {
    Card((set x | x in winning), yours)
  }

  /** A written card is read back, its winning numbers as a set. */
  lemma ReadShowCard(id: nat, winning: seq<nat>, yours: seq<nat>)
    requires Bytes(winning) && Bytes(yours)
    ensures ReadCard(ShowCard(id, winning, yours)) == Ok(CardOf(winning, yours))
  {
    SplitShownCard(id, WinningText(winning) + "|" + YoursText(yours));
    SplitShownHalves(winning, YoursText(yours));
    ReadShownNumbers(winning, " ");
    ReadShownNumbers(yours, "");
    assert YoursText(yours) == " " + Text.Unwords(ShowNumbers(yours)) + "";
    ReadCardParts(CardHead(id), WinningText(winning), YoursText(yours), winning, yours);
  }

  /** How `ReadCard` takes apart a line whose pieces read as given. */
  lemma ReadCardParts(head: string, left: string, right: string, w: seq<nat>, y: seq<nat>)
    requires Text.SplitOnce(head + ":" + (left + "|" + right), ':') == Some((head, left + "|" + right))
    requires Text.SplitOnce(left + "|" + right, '|') == Some((left, right))
    requires ReadNumbers(left) == Ok(w) && ReadNumbers(right) == Ok(y)
    ensures ReadCard(head + ":" + (left + "|" + right)) == Ok(CardOf(w, y))
  {
  }

  lemma SplitShownCard(id: nat, rest: string)
    ensures Text.SplitOnce(CardHead(id) + ":" + rest, ':') == Some((CardHead(id), rest))
  {
    Text.NotInUnwords([Text.ShowNat(id)], ':');
    assert ':' !in CardHead(id);
    Text.SplitOnceAt(CardHead(id), ':', rest);
  }

  lemma SplitShownHalves(winning: seq<nat>, right: string)
    ensures Text.SplitOnce(WinningText(winning) + "|" + right, '|') == Some((WinningText(winning), right))
  {
    NumbersWithout(winning, '|');
    Text.SplitOnceAt(WinningText(winning), '|', right);
  }

  /** Written numbers hold only digits and spaces. */
  lemma NumbersWithout(xs: seq<nat>, x: char)
    requires x != ' ' && !Text.IsAsciiDigit(x)
    ensures x !in Text.Unwords(ShowNumbers(xs))
  {
    var ws := ShowNumbers(xs);
    forall k | 0 <= k < |ws|
      ensures x !in ws[k]
    {
      assert Text.AllDigits(ws[k]);
    }
    Text.NotInUnwords(ws, x);
  }

  lemma ReadShownNumbers(xs: seq<nat>, post: string)
    requires Bytes(xs) && Text.AllWhitespace(post)
    ensures ReadNumbers(" " + Text.Unwords(ShowNumbers(xs)) + post) == Ok(xs)
  {
    var ws := ShowNumbers(xs);
    forall k | 0 <= k < |ws|
      ensures |ws[k]| > 0 && Text.NoWhitespace(ws[k])
    {
      assert Text.AllDigits(ws[k]);
    }
    Text.SplitWhitespacePadded(" ", ws, post);
    forall k | 0 <= k < |ws|
      ensures ReadByte(ws[k]) == Ok(xs[k])
    {
      ReadShownByte(xs[k]);
    }
    MapAllOk(ReadByte, ws, xs);
  }

  /** Card `k + 1` of each row of winning numbers and numbers you have. */
  function ShowCards(rows: seq<(seq<nat>, seq<nat>)>): (lines: seq<string>)
    ensures |lines| == |rows|
    ensures forall k :: 0 <= k < |rows| ==> lines[k] == ShowCard(k + 1, rows[k].0, rows[k].1)
  {
    seq(|rows|, k requires 0 <= k < |rows| => ShowCard(k + 1, rows[k].0, rows[k].1))
  }

  /** The cards written rows stand for. */
  function CardsOf(rows: seq<(seq<nat>, seq<nat>)>): (cards: seq<Card>)
    ensures |cards| == |rows|
    ensures forall k :: 0 <= k < |rows| ==> cards[k] == CardOf(rows[k].0, rows[k].1)
  {
    seq(|rows|, k requires 0 <= k < |rows| => CardOf(rows[k].0, rows[k].1))
  }

  /** Written cards, one per line, are read back in order. */
  lemma ReadShowCards(rows: seq<(seq<nat>, seq<nat>)>)
    requires forall k :: 0 <= k < |rows| ==> Bytes(rows[k].0) && Bytes(rows[k].1)
    ensures Read(Text.Unlines(ShowCards(rows))) == Ok(CardsOf(rows))
  {
    var lines := ShowCards(rows);
    ShowCardsAreLines(rows, lines);
    Text.LinesUnlines(lines);
    ReadEachShownCard(rows, lines, CardsOf(rows));
    MapAllOk(ReadCard, lines, CardsOf(rows));
  }

  lemma ShowCardsAreLines(rows: seq<(seq<nat>, seq<nat>)>, lines: seq<string>)
    requires lines == ShowCards(rows)
    ensures forall k :: 0 <= k < |lines| ==> Text.IsLine(lines[k])
  {
    forall k | 0 <= k < |lines|
      ensures Text.IsLine(lines[k])
    {
      ShowCardIsLine(k + 1, rows[k].0, rows[k].1);
    }
  }

  lemma ReadEachShownCard(rows: seq<(seq<nat>, seq<nat>)>, lines: seq<string>, cards: seq<Card>)
    requires forall k :: 0 <= k < |rows| ==> Bytes(rows[k].0) && Bytes(rows[k].1)
    requires lines == ShowCards(rows) && cards == CardsOf(rows)
    ensures |lines| == |cards| && forall k :: 0 <= k < |lines| ==> ReadCard(lines[k]) == Ok(cards[k])
  {
    forall k | 0 <= k < |lines|
      ensures ReadCard(lines[k]) == Ok(cards[k])
    {
      ReadShownRow(k + 1, rows[k], lines[k], cards[k]);
    }
  }

  lemma ReadShownRow(id: nat, row: (seq<nat>, seq<nat>), line: string, card: Card)
    requires Bytes(row.0) && Bytes(row.1)
    requires line == ShowCard(id, row.0, row.1) && card == CardOf(row.0, row.1)
    ensures ReadCard(line) == Ok(card)
  {
    ReadShowCard(id, row.0, row.1);
  }

  lemma ShowCardIsLine(id: nat, winning: seq<nat>, yours: seq<nat>)
    ensures Text.IsLine(ShowCard(id, winning, yours))
  {
    var s := ShowCard(id, winning, yours);
    Text.NotInUnwords([Text.ShowNat(id)], '\n');
    Text.NotInUnwords([Text.ShowNat(id)], '\r');
    NumbersWithout(winning, '\n');
    NumbersWithout(yours, '\n');
    NumbersWithout(winning, '\r');
    NumbersWithout(yours, '\r');
    assert '\n' !in s && '\r' !in s;
    assert s[|s| - 1] in s;
  }

  // ---------------------------------------------------------------------
  // Part 1

  /** `part1`: the total of the scores, and the scores in card order. */
  function Part1(cards: seq<Card>): (r: (int, seq<int>))
    ensures |r.1| == |cards|
    ensures forall k :: 0 <= k < |cards| ==> r.1[k] == Score(cards[k])
  {
    var scores := Seqs.Image(Score, cards);
    (Seqs.Sum(scores), scores)
  }

  /** The total is nothing exactly when no card has a match. */
  lemma Part1Zero(cards: seq<Card>)
    ensures Part1(cards).0 >= 0
    ensures Part1(cards).0 == 0 <==> forall k :: 0 <= k < |cards| ==> NumMatching(cards[k]) == 0
  {
    var scores := Part1(cards).1;
    Seqs.SumNonNegative(scores);
    if exists k :: 0 <= k < |cards| && NumMatching(cards[k]) != 0 {
      var k :| 0 <= k < |cards| && NumMatching(cards[k]) != 0;
      Seqs.EntryAtMostSum(scores, k);
    } else {
      SumOfZeros(scores);
    }
  }

  lemma {:induction false} SumOfZeros(s: seq<int>)
    requires forall k :: 0 <= k < |s| ==> s[k] == 0
    ensures Seqs.Sum(s) == 0
  {
    if |s| > 0 {
      SumOfZeros(s[1..]);
    }
  }

  /** Scores add up over a pile of cards split in two. */
  lemma Part1Append(a: seq<Card>, b: seq<Card>)
    ensures Part1(a + b).0 == Part1(a).0 + Part1(b).0
    ensures Part1(a + b).1 == Part1(a).1 + Part1(b).1
  {
    Seqs.ImageAppend(Score, a, b);
    Seqs.SumAppend(Part1(a).1, Part1(b).1);
  }

  // ---------------------------------------------------------------------
  // Part 2

  /** The number of matches of each card. */
  function Wins(cards: seq<Card>): (wins: seq<nat>)
    ensures |wins| == |cards|
    ensures forall k :: 0 <= k < |cards| ==> wins[k] == NumMatching(cards[k])
  {
    seq(|cards|, k requires 0 <= k < |cards| => NumMatching(cards[k]))
  }

  /** How many instances of card `j` you end up with: the original, plus
      one copy for each instance of an earlier card `p` whose matches reach
      card `j`, i.e. `p < j <= p + wins[p]`. */
  function Copies(wins: seq<nat>, j: nat): nat
    requires j < |wins|
    decreases j, 1
  {
    1 + WonBy(wins, j, j)
  }

  /** Copies of card `j` won by the instances of cards `0 .. upto - 1`. */
  function WonBy(wins: seq<nat>, j: nat, upto: nat): nat
    requires j < |wins| && upto <= |wins|
    decreases upto, 0
  {
    if upto == 0 then 0
    else
      var p := upto - 1;
      WonBy(wins, j, p) + (if p < j <= p + wins[p] then Copies(wins, p) else 0)
  }

  /** Card `i`'s instances win one copy each of cards `i + 1 .. i + wins[i]`. */
  lemma WonByStep(wins: seq<nat>, j: nat, i: nat)
    requires j < |wins| && i < |wins|
    ensures WonBy(wins, j, i + 1) == WonBy(wins, j, i) + (if i + 1 <= j < i + wins[i] + 1 then Copies(wins, i) else 0)
  {
  }

  /** Cards at or after card `j` win nothing for it. */
  lemma {:induction false} WonBySettled(wins: seq<nat>, j: nat, upto: nat)
    requires j <= upto <= |wins| && j < |wins|
    ensures WonBy(wins, j, upto) == WonBy(wins, j, j)
    decreases upto
  {
    if upto > j {
      WonBySettled(wins, j, upto - 1);
    }
  }

  /** The instances of every card. */
  function CopiesOf(wins: seq<nat>): (r: seq<nat>)
    ensures |r| == |wins| && forall j :: 0 <= j < |wins| ==> r[j] == Copies(wins, j)
  {
    CopiesUpTo(wins, |wins|)
  }

  /** The instances of cards `0 .. n - 1`. */
  function CopiesUpTo(wins: seq<nat>, n: nat): (r: seq<nat>)
    requires n <= |wins|
    ensures |r| == n && forall j :: 0 <= j < n ==> r[j] == Copies(wins, j)
  {
    if n == 0 then [] else CopiesUpTo(wins, n - 1) + [Copies(wins, n - 1)]
  }

  /** The number of cards you end up with. */
  function TotalCards(cards: seq<Card>): int {
    Seqs.Sum(CopiesOf(Wins(cards)))
  }

  /** `part2`: a running count per card, starting at 1; card `i` adds its
      count to each of the next `num_matching` cards that exist.  Copies
      that would go past the last card are dropped. */
  method Part2(cards: seq<Card>) returns (total: int)
    ensures total == TotalCards(cards)
  {
    var wins := Wins(cards);
    var count: seq<nat> := seq(|cards|, _ => 1);
    for i := 0 to |cards|
      invariant |count| == |cards|
      invariant forall j :: 0 <= j < |cards| ==> count[j] == 1 + WonBy(wins, j, i)
    {
      var ci := count[i];
      WonBySettled(wins, i, i);
      assert ci == Copies(wins, i);
      count := AddCopies(count, i + 1, i + wins[i] + 1, ci);
      forall j | 0 <= j < |cards|
        ensures count[j] == 1 + WonBy(wins, j, i + 1)
      {
        WonByStep(wins, j, i);
      }
    }
    forall j | 0 <= j < |cards|
      ensures count[j] == Copies(wins, j)
    {
      WonBySettled(wins, j, |cards|);
    }
    assert count == CopiesOf(wins);
    total := Seqs.Sum(count);
  }

  /** The loop `for j in lo..hi` adding `ci` to each `count[j]` that
      exists (`count.get_mut(j)`); indices past the end are skipped. */
  method AddCopies(count: seq<nat>, lo: nat, hi: nat, ci: nat) returns (after: seq<nat>)
    ensures |after| == |count|
    ensures forall k :: 0 <= k < |count| ==> after[k] == count[k] + (if lo <= k < hi then ci else 0)
  {
    after := count;
    for j := lo to if hi < lo then lo else hi
      invariant |after| == |count|
      invariant forall k :: 0 <= k < |count| ==> after[k] == count[k] + (if lo <= k < j then ci else 0)
    {
      if j < |after| {
        after := after[j := after[j] + ci];
      }
    }
  }

  /** Each card is held at least once, so there are at least as many cards
      as lines; exactly as many when no card but the last has a match, since
      the last card's matches would reach past the end. */
  lemma TotalCardsAtLeast(cards: seq<Card>)
    ensures TotalCards(cards) >= |cards|
    ensures TotalCards(cards) == |cards| <==> forall k :: 0 <= k < |cards| - 1 ==> NumMatching(cards[k]) == 0
  {
    var wins := Wins(cards);
    var copies := CopiesOf(wins);
    SumAtLeastLength(copies);
    if forall k :: 0 <= k < |cards| - 1 ==> NumMatching(cards[k]) == 0 {
      forall j | 0 <= j < |copies|
        ensures copies[j] == 1
      {
        WonByNone(wins, j, j);
      }
    } else {
      var k :| 0 <= k < |cards| - 1 && NumMatching(cards[k]) != 0;
      assert WonBy(wins, k + 1, k + 1) >= Copies(wins, k);
      assert copies[k + 1] != 1;
    }
  }

  /** Without matches before the last card, no card wins a copy. */
  lemma {:induction false} WonByNone(wins: seq<nat>, j: nat, upto: nat)
    requires j < |wins| && upto <= |wins|
    requires forall p :: 0 <= p < |wins| - 1 ==> wins[p] == 0
    ensures WonBy(wins, j, upto) == 0
  {
    if upto > 0 {
      WonByNone(wins, j, upto - 1);
    }
  }

  lemma {:induction false} SumAtLeastLength(s: seq<nat>)
    requires forall k :: 0 <= k < |s| ==> s[k] >= 1
    ensures Seqs.Sum(s) >= |s|
    ensures Seqs.Sum(s) == |s| <==> forall k :: 0 <= k < |s| ==> s[k] == 1
  {
    if |s| > 0 {
      SumAtLeastLength(s[1..]);
      assert forall k :: 1 <= k < |s| ==> s[k] == s[1..][k - 1];
    }
  }

  /** A card's instances depend only on the cards before it: cards added at
      the end change no earlier count. */
  lemma {:induction false} CopiesPrefix(wins: seq<nat>, more: seq<nat>, j: nat)
    requires j < |wins|
    ensures Copies(wins + more, j) == Copies(wins, j)
    decreases j, 1
  {
    WonByPrefix(wins, more, j, j);
  }

  lemma {:induction false} WonByPrefix(wins: seq<nat>, more: seq<nat>, j: nat, upto: nat)
    requires j < |wins| && upto <= |wins|
    ensures WonBy(wins + more, j, upto) == WonBy(wins, j, upto)
    decreases upto, 0
  {
    if upto > 0 {
      var p := upto - 1;
      assert (wins + more)[p] == wins[p];
      WonByPrefix(wins, more, j, p);
      CopiesPrefix(wins, more, p);
    }
  }

  /** One more card leaves the earlier counts alone and adds its own
      instances to the total. */
  lemma TotalCardsAppend(cards: seq<Card>, card: Card)
    ensures TotalCards(cards + [card]) == TotalCards(cards) + Copies(Wins(cards + [card]), |cards|)
  {
    var wins := Wins(cards);
    WinsAppend(cards, card);
    CopiesOfAppend(wins, NumMatching(card));
    Seqs.SumAppend(CopiesOf(wins), [Copies(wins + [NumMatching(card)], |wins|)]);
  }

  lemma WinsAppend(cards: seq<Card>, card: Card)
    ensures Wins(cards + [card]) == Wins(cards) + [NumMatching(card)]
  {
    assert forall k :: 0 <= k < |cards| ==> (cards + [card])[k] == cards[k];
  }

  lemma CopiesOfAppend(wins: seq<nat>, x: nat)
    ensures CopiesOf(wins + [x]) == CopiesOf(wins) + [Copies(wins + [x], |wins|)]
  {
    CopiesUpToPrefix(wins, [x], |wins|);
  }

  lemma {:induction false} CopiesUpToPrefix(wins: seq<nat>, more: seq<nat>, n: nat)
    requires n <= |wins|
    ensures CopiesUpTo(wins + more, n) == CopiesUpTo(wins, n)
  {
    if n > 0 {
      CopiesUpToPrefix(wins, more, n - 1);
      CopiesPrefix(wins, more, n - 1);
    }
  }

  // ---------------------------------------------------------------------
  // The puzzle's example

  const SampleRows: seq<(seq<nat>, seq<nat>)> := [
    ([41, 48, 83, 86, 17], [83, 86, 6, 31, 17, 9, 48, 53]),
    ([13, 32, 20, 16, 61], [61, 30, 68, 82, 17, 32, 24, 19]),
    ([1, 21, 53, 59, 44], [69, 82, 63, 72, 16, 21, 14, 1]),
    ([41, 92, 73, 84, 69], [59, 84, 76, 51, 58, 5, 54, 83]),
    ([87, 83, 26, 28, 32], [88, 30, 70, 12, 93, 22, 82, 36]),
    ([31, 18, 13, 56, 72], [74, 77, 10, 23, 35, 67, 36, 11])
  ]

  const SampleCard1 := Card({41, 48, 83, 86, 17}, [83, 86, 6, 31, 17, 9, 48, 53])
  const SampleCard2 := Card({13, 32, 20, 16, 61}, [61, 30, 68, 82, 17, 32, 24, 19])
  const SampleCard3 := Card({1, 21, 53, 59, 44}, [69, 82, 63, 72, 16, 21, 14, 1])
  const SampleCard4 := Card({41, 92, 73, 84, 69}, [59, 84, 76, 51, 58, 5, 54, 83])
  const SampleCard5 := Card({87, 83, 26, 28, 32}, [88, 30, 70, 12, 93, 22, 82, 36])
  const SampleCard6 := Card({31, 18, 13, 56, 72}, [74, 77, 10, 23, 35, 67, 36, 11])

  const SampleCards: seq<Card> := [
    SampleCard1, SampleCard2, SampleCard3, SampleCard4, SampleCard5, SampleCard6
  ]

  /** The example's text reads as its six cards. */
  lemma SampleRead(rows: seq<(seq<nat>, seq<nat>)>)
    requires rows == SampleRows
    ensures Read(Text.Unlines(ShowCards(rows))) == Ok(SampleCards)
  {
    SampleBytes(rows);
    ReadShowCards(rows);
    SampleCardsOf(rows, CardsOf(rows));
  }

  lemma SampleBytes(rows: seq<(seq<nat>, seq<nat>)>)
    requires rows == SampleRows
    ensures forall k :: 0 <= k < |rows| ==> Bytes(rows[k].0) && Bytes(rows[k].1)
  {
  }

  lemma SampleCardsOf(rows: seq<(seq<nat>, seq<nat>)>, cards: seq<Card>)
    requires rows == SampleRows && cards == CardsOf(rows)
    ensures cards == SampleCards
  {
    assert cards[0].winning == SampleCard1.winning;
    assert cards[1].winning == SampleCard2.winning;
    assert cards[2].winning == SampleCard3.winning;
    assert cards[3].winning == SampleCard4.winning;
    assert cards[4].winning == SampleCard5.winning;
    assert cards[5].winning == SampleCard6.winning;
  }

  /** The example's cards have 4, 2, 2, 1, 0 and 0 matches. */
  lemma SampleWins(cards: seq<Card>)
    requires cards == SampleCards
    ensures Wins(cards) == [4, 2, 2, 1, 0, 0]
  {
    SampleMatches1();
    SampleMatches2();
    SampleMatches3();
    SampleMatches4();
    SampleMatches5();
    SampleMatches6();
  }

  lemma SampleMatches1()
    ensures NumMatching(SampleCard1) == 4
  {
  }

  lemma SampleMatches2()
    ensures NumMatching(SampleCard2) == 2
  {
  }

  lemma SampleMatches3()
    ensures NumMatching(SampleCard3) == 2
  {
  }

  lemma SampleMatches4()
    ensures NumMatching(SampleCard4) == 1
  {
  }

  lemma SampleMatches5()
    ensures NumMatching(SampleCard5) == 0
  {
  }

  lemma SampleMatches6()
    ensures NumMatching(SampleCard6) == 0
  {
  }

  /** Part 1 of the example: 8 + 2 + 2 + 1 = 13. */
  lemma SamplePart1(cards: seq<Card>)
    requires cards == SampleCards
    ensures Part1(cards) == (13, [8, 2, 2, 1, 0, 0])
  {
    SampleWins(cards);
    SamplePoints([4, 2, 2, 1, 0, 0], [8, 2, 2, 1, 0, 0]);
    Part1OfWins(cards, [4, 2, 2, 1, 0, 0], [8, 2, 2, 1, 0, 0]);
    assert Seqs.Sum([8, 2, 2, 1, 0, 0]) == 13;
  }

  lemma SamplePoints(wins: seq<nat>, scores: seq<int>)
    requires wins == [4, 2, 2, 1, 0, 0] && scores == [8, 2, 2, 1, 0, 0]
    ensures |scores| == |wins| && forall k :: 0 <= k < |wins| ==> scores[k] == Points(wins[k])
  {
    assert Points(4) == 8 && Points(2) == 2 && Points(1) == 1;
  }

  /** Part 1 only needs the number of matches of each card. */
  lemma Part1OfWins(cards: seq<Card>, wins: seq<nat>, scores: seq<int>)
    requires wins == Wins(cards)
    requires |scores| == |wins| && forall k :: 0 <= k < |wins| ==> scores[k] == Points(wins[k])
    ensures Part1(cards) == (Seqs.Sum(scores), scores)
  {
    var image := Seqs.Image(Score, cards);
    assert forall k :: 0 <= k < |cards| ==> image[k] == Score(cards[k]) == scores[k];
    assert image == scores;
  }

  /** Part 2 of the example: 1 + 2 + 4 + 8 + 14 + 1 = 30 cards. */
  lemma SamplePart2(cards: seq<Card>)
    requires cards == SampleCards
    ensures TotalCards(cards) == 30
  {
    SampleWins(cards);
    SampleCopies(Wins(cards));
    assert Seqs.Sum([1, 2, 4, 8, 14, 1]) == 30;
  }

  lemma SampleCopies(wins: seq<nat>)
    requires wins == [4, 2, 2, 1, 0, 0]
    ensures CopiesOf(wins) == [1, 2, 4, 8, 14, 1]
  {
    assert Copies(wins, 0) == 1;
    assert Copies(wins, 1) == 2;
    assert Copies(wins, 2) == 4;
    assert Copies(wins, 3) == 8;
    assert Copies(wins, 4) == 14;
    assert Copies(wins, 5) == 1;
  }
}
