/** Day 1, "Trebuchet?!": every line of the calibration document hides a
    two-digit value made of its first and its last digit.  Part 1 only
    counts ASCII digits; part 2 also counts the spelled-out words "one" to
    "nine", which may overlap ("twone" starts with 2 and ends with 1). */
module Day01 {
  import opened Wrappers
  import Text
  import Seqs

  const NoDigit := "No digit in input line"

  // ---------------------------------------------------------------------
  // Part 1: ASCII digits

  /** `chars().find(is_ascii_digit)` from index `i` on: the index of the
      first digit at or after `i`. */
  function FindDigit(l: string, i: nat): (r: Option<nat>)
    requires i <= |l|
    ensures r.Some? ==> i <= r.value < |l| && Text.IsAsciiDigit(l[r.value])
    decreases |l| - i
  {
    if i == |l| then None
    else if Text.IsAsciiDigit(l[i]) then Some(i)
    else FindDigit(l, i + 1)
  }

  /** `rfind(is_ascii_digit)` on the characters `lo .. j`: the index of the
      last digit before `j` and not before `lo`. */
  function RFindDigit(l: string, lo: nat, j: nat): (r: Option<nat>)
    requires lo <= j <= |l|
    ensures r.Some? ==> lo <= r.value < j && Text.IsAsciiDigit(l[r.value])
    decreases j
  {
    if j == lo then None
    else if Text.IsAsciiDigit(l[j - 1]) then Some(j - 1)
    else RFindDigit(l, lo, j - 1)
  }

  /** `FindDigit` finds the leftmost digit, and finds none exactly when
      there is none. */
  lemma {:induction false} FindDigitSpec(l: string, i: nat)
    requires i <= |l|
    ensures FindDigit(l, i).None? <==> forall k :: i <= k < |l| ==> !Text.IsAsciiDigit(l[k])
    ensures FindDigit(l, i).Some? ==> forall k :: i <= k < FindDigit(l, i).value ==> !Text.IsAsciiDigit(l[k])
    decreases |l| - i
  {
    if i < |l| && !Text.IsAsciiDigit(l[i]) {
      FindDigitSpec(l, i + 1);
    }
  }

  /** `RFindDigit` finds the rightmost digit of its range, and finds none
      exactly when there is none. */
  lemma {:induction false} RFindDigitSpec(l: string, lo: nat, j: nat)
    requires lo <= j <= |l|
    ensures RFindDigit(l, lo, j).None? <==> forall k :: lo <= k < j ==> !Text.IsAsciiDigit(l[k])
    ensures RFindDigit(l, lo, j).Some? ==> forall k :: RFindDigit(l, lo, j).value < k < j ==> !Text.IsAsciiDigit(l[k])
    decreases j
  {
    if j > lo && !Text.IsAsciiDigit(l[j - 1]) {
      RFindDigitSpec(l, lo, j - 1);
    }
  }

  /** Widening the range of a backward search to the left only matters
      when the narrow range holds no digit. */
  lemma {:induction false} RFindDigitWiden(l: string, lo: nat, lo': nat, j: nat)
    requires lo' <= lo <= j <= |l|
    ensures RFindDigit(l, lo, j).Some? ==> RFindDigit(l, lo', j) == RFindDigit(l, lo, j)
    ensures RFindDigit(l, lo, j).None? ==> RFindDigit(l, lo', j) == RFindDigit(l, lo', lo)
    decreases j
  {
    if j > lo && !Text.IsAsciiDigit(l[j - 1]) {
      RFindDigitWiden(l, lo, lo', j - 1);
    }
  }

  /** One line of `Data1::from_str`: the first digit, and the last digit
      strictly after it if there is one. */
  function ReadLine1(l: string): (r: Result<(nat, Option<nat>)>)
    ensures r.Ok? <==> FindDigit(l, 0).Some?
    ensures r.Err? ==> r.error == ParseError(NoDigit)
  {
    match FindDigit(l, 0)
    case None => Err(ParseError(NoDigit))
    case Some(i) =>
      var last := RFindDigit(l, i + 1, |l|);
      Ok((Text.DigitValue(l[i]), if last.Some? then Some(Text.DigitValue(l[last.value])) else None))
  }

  /** `Data1::from_str`. */
  function Read1(input: string): Result<seq<(nat, Option<nat>)>> {
    MapAll(ReadLine1, Text.Lines(input))
  }

  /** The calibration value `part1` gives one line: a lone digit counts as
      both the first and the last. */
  function Value1(item: (nat, Option<nat>)): int {
    match item.1
    case Some(last) => item.0 * 10 + last
    case None => 11 * item.0
  }

  /** `part1`. */
  function Part1(items: seq<(nat, Option<nat>)>): int {
    Seqs.Sum(Seqs.Image(Value1, items))
  }

  /** The value a line is meant to have: ten times its first digit plus its
      last digit, the same digit when there is only one. */
  function Calibration1(l: string): (v: Option<int>)
    ensures v.Some? ==> 0 <= v.value <= 99
  {
    match FindDigit(l, 0)
    case None => None
    case Some(i) =>
      var j := RFindDigit(l, 0, |l|);
      if j.Some? then Some(10 * Text.DigitValue(l[i]) + Text.DigitValue(l[j.value])) else None
  }

  /** Searching for the last digit only after the first one, with the
      `None` case read as the first digit again, gives the intended value. */
  lemma ReadLine1Calibration(l: string)
    ensures ReadLine1(l).Ok? <==> exists k :: 0 <= k < |l| && Text.IsAsciiDigit(l[k])
    ensures ReadLine1(l).Ok? ==> Calibration1(l) == Some(Value1(ReadLine1(l).value))
  {
    FindDigitSpec(l, 0);
    if FindDigit(l, 0).Some? {
      var i := FindDigit(l, 0).value;
      RFindDigitWiden(l, i + 1, 0, |l|);
      if RFindDigit(l, i + 1, |l|).None? {
        assert RFindDigit(l, 0, i + 1) == Some(i);
      }
    }
  }

  /** Part 1 adds up the intended value of every line. */
  lemma Part1Calibration(lines: seq<string>, items: seq<(nat, Option<nat>)>, values: seq<int>)
    requires MapAll(ReadLine1, lines) == Ok(items)
    requires |values| == |lines|
    requires forall k :: 0 <= k < |lines| ==> Calibration1(lines[k]).Some? && Calibration1(lines[k]).value == values[k]
    ensures Part1(items) == Seqs.Sum(values)
  {
    var image := Seqs.Image(Value1, items);
    forall k | 0 <= k < |lines|
      ensures image[k] == values[k]
    {
      ReadLine1Calibration(lines[k]);
    }
    assert image == values;
  }

  // ---------------------------------------------------------------------
  // Part 2: digits and spelled-out digits

  /** The words of the regular expression, in the order of its
      alternatives; word `k` spells `k + 1`. */
  const Words: seq<string> := ["one", "two", "three", "four", "five", "six", "seven", "eight", "nine"]

  /** The alternatives of the second regular expression: every word
      spelled backwards. */
  const ReversedWords: seq<string> := ["eno", "owt", "eerht", "ruof", "evif", "xis", "neves", "thgie", "enin"]

  /** `rwords[k]` is `words[k]` spelled backwards. */
  predicate Mirrored(words: seq<string>, rwords: seq<string>) {
    |rwords| == |words| &&
    forall k :: 0 <= k < |words| ==>
      |rwords[k]| == |words[k]| &&
      forall t :: 0 <= t < |words[k]| ==> rwords[k][t] == words[k][|words[k]| - 1 - t]
  }

  /** `words[k]` parses as `k + 1`. */
  predicate SpellsDigits(words: seq<string>) {
    forall k :: 0 <= k < |words| ==> ParseDigit(words[k]) == Ok(k + 1)
  }

  /** The two word lists of the regular expressions are mirror images, and
      `parse_digit` reads word `k` of the first as `k + 1`. */
  lemma WordsMirrored(words: seq<string>, rwords: seq<string>)
    requires words == Words && rwords == ReversedWords
    ensures Mirrored(words, rwords)
  {
  }

  lemma WordsSpellDigits(words: seq<string>)
    requires words == Words
    ensures SpellsDigits(words)
  {
  }

  /** `w` occurs in `s` starting at index `i`. */
  predicate StartsAt(s: string, i: nat, w: string) {
    i + |w| <= |s| && s[i..i + |w|] == w
  }

  /** `w` occurs in `s` ending just before index `j`. */
  predicate EndsAt(s: string, j: nat, w: string) {
    |w| <= j <= |s| && s[j - |w|..j] == w
  }

  /** The first of `words[k..]` that occurs at index `i`. */
  function WordAt(s: string, i: nat, words: seq<string>, k: nat): (r: Option<nat>)
    requires k <= |words|
    ensures r.Some? ==> k <= r.value < |words| && StartsAt(s, i, words[r.value])
    decreases |words| - k
  {
    if k == |words| then None
    else if StartsAt(s, i, words[k]) then Some(k)
    else WordAt(s, i, words, k + 1)
  }

  /** The leftmost-first match of `[0-9]|w1|w2|...` at index `i`: the digit
      class is tried first, then the words in order. */
  function MatchAt(s: string, i: nat, words: seq<string>): Option<string> {
    if i < |s| && Text.IsAsciiDigit(s[i]) then Some([s[i]])
    else match WordAt(s, i, words, 0)
      case Some(k) => Some(words[k])
      case None => None
  }

  /** `find_iter(s).next()` started at index `i`: the match that starts
      leftmost. */
  function FindMatch(s: string, words: seq<string>, i: nat): Option<string>
    requires i <= |s|
    decreases |s| - i
  {
    match MatchAt(s, i, words)
    case Some(m) => Some(m)
    case None => if i == |s| then None else FindMatch(s, words, i + 1)
  }

  /** `parse_digit`: a word gives its number; anything else gives the value
      of its first character, and panics when there is none or it is not
      a digit. */
  function ParseDigit(s: string): (r: Result<nat>)
    ensures r.Ok? ==> r.value <= 9
    ensures r.Err? ==> r.error == Panic(UnwrapNone)
  {
    if s == "one" then Ok(1)
    else if s == "two" then Ok(2)
    else if s == "three" then Ok(3)
    else if s == "four" then Ok(4)
    else if s == "five" then Ok(5)
    else if s == "six" then Ok(6)
    else if s == "seven" then Ok(7)
    else if s == "eight" then Ok(8)
    else if s == "nine" then Ok(9)
    else if |s| == 0 then Err(Panic(UnwrapNone))
    else if Text.IsAsciiDigit(s[0]) then Ok(Text.DigitValue(s[0]))
    else Err(Panic(UnwrapNone))
  }

  /** A digit character parses as its value. */
  lemma ParseDigitChar(c: char)
    requires Text.IsAsciiDigit(c)
    ensures ParseDigit([c]) == Ok(Text.DigitValue(c))
  {
  }

  /** One line of `Data2::from_str`: the leftmost match in the line, and
      the leftmost match of the reversed words in the reversed line, turned
      back round. */
  function ReadLine2(l: string): Result<(nat, nat)> {
    match FindMatch(l, Words, 0)
    case None => Err(ParseError(NoDigit))
    case Some(first) =>
      match FindMatch(Seqs.Reverse(l), ReversedWords, 0)
      case None => Err(ParseError(NoDigit))
      case Some(lastReversed) =>
        var a :- ParseDigit(first);
        var b :- ParseDigit(Seqs.Reverse(lastReversed));
        Ok((a, b))
  }

  /** `Data2::from_str`. */
  function Read2(input: string): Result<seq<(nat, nat)>> {
    MapAll(ReadLine2, Text.Lines(input))
  }

  function Value2(item: (nat, nat)): int {
    item.0 * 10 + item.1
  }

  /** `part2`. */
  function Part2(items: seq<(nat, nat)>): int {
    Seqs.Sum(Seqs.Image(Value2, items))
  }

  // The digits a line spells, read without regular expressions.

  /** The digit spelled by the token that starts at index `i`, if any. */
  function DigitStartingAt(s: string, i: nat, words: seq<string>): Option<nat> {
    if i < |s| && Text.IsAsciiDigit(s[i]) then Some(Text.DigitValue(s[i]))
    else match WordAt(s, i, words, 0)
      case Some(k) => Some(k + 1)
      case None => None
  }

  /** The first of `words[k..]` that ends just before index `j`. */
  function WordEndingAt(s: string, j: nat, words: seq<string>, k: nat): (r: Option<nat>)
    requires k <= |words|
    ensures r.Some? ==> k <= r.value < |words| && EndsAt(s, j, words[r.value])
    decreases |words| - k
  {
    if k == |words| then None
    else if EndsAt(s, j, words[k]) then Some(k)
    else WordEndingAt(s, j, words, k + 1)
  }

  /** The digit spelled by the token that ends just before index `j`, if
      any. */
  function DigitEndingAt(s: string, j: nat, words: seq<string>): Option<nat> {
    if 0 < j <= |s| && Text.IsAsciiDigit(s[j - 1]) then Some(Text.DigitValue(s[j - 1]))
    else match WordEndingAt(s, j, words, 0)
      case Some(k) => Some(k + 1)
      case None => None
  }

  /** The digit of the token that starts leftmost at or after `i`. */
  function FirstDigit(s: string, i: nat, words: seq<string>): Option<nat>
    requires i <= |s|
    decreases |s| - i
  {
    match DigitStartingAt(s, i, words)
    case Some(d) => Some(d)
    case None => if i == |s| then None else FirstDigit(s, i + 1, words)
  }

  /** The digit of the token that ends rightmost at or before `j`. */
  function LastDigit(s: string, j: nat, words: seq<string>): Option<nat>
    requires j <= |s|
    decreases j
  {
    match DigitEndingAt(s, j, words)
    case Some(d) => Some(d)
    case None => if j == 0 then None else LastDigit(s, j - 1, words)
  }

  /** `FirstDigit` is the digit of the leftmost token. */
  lemma {:induction false} FirstDigitSpec(s: string, i: nat, words: seq<string>)
    requires i <= |s|
    ensures FirstDigit(s, i, words).None? <==> forall t :: i <= t <= |s| ==> DigitStartingAt(s, t, words).None?
    ensures FirstDigit(s, i, words).Some? ==>
      exists t :: i <= t <= |s| && DigitStartingAt(s, t, words) == FirstDigit(s, i, words) &&
        forall u :: i <= u < t ==> DigitStartingAt(s, u, words).None?
    decreases |s| - i
  {
    if DigitStartingAt(s, i, words).None? && i < |s| {
      FirstDigitSpec(s, i + 1, words);
    }
  }

  /** `LastDigit` is the digit of the rightmost-ending token. */
  lemma {:induction false} LastDigitSpec(s: string, j: nat, words: seq<string>)
    requires j <= |s|
    ensures LastDigit(s, j, words).None? <==> forall t :: 0 <= t <= j ==> DigitEndingAt(s, t, words).None?
    ensures LastDigit(s, j, words).Some? ==>
      exists t :: 0 <= t <= j && DigitEndingAt(s, t, words) == LastDigit(s, j, words) &&
        forall u :: t < u <= j ==> DigitEndingAt(s, u, words).None?
    decreases j
  {
    if DigitEndingAt(s, j, words).None? && j > 0 {
      LastDigitSpec(s, j - 1, words);
    }
  }

  lemma {:induction false} WordEndingAtFound(s: string, j: nat, words: seq<string>, k: nat, m: nat)
    requires k <= m < |words| && EndsAt(s, j, words[m])
    ensures WordEndingAt(s, j, words, k).Some?
    decreases m - k
  {
    if !EndsAt(s, j, words[k]) {
      WordEndingAtFound(s, j, words, k + 1, m);
    }
  }

  lemma {:induction false} WordAtFound(s: string, i: nat, words: seq<string>, k: nat, m: nat)
    requires k <= m < |words| && StartsAt(s, i, words[m])
    ensures WordAt(s, i, words, k).Some?
    decreases m - k
  {
    if !StartsAt(s, i, words[k]) {
      WordAtFound(s, i, words, k + 1, m);
    }
  }

  /** A token that starts somewhere also ends somewhere, and the other way
      round, so a line has a leftmost token exactly when it has a
      rightmost one. */
  lemma FirstDigitLastDigit(s: string, words: seq<string>)
    ensures FirstDigit(s, 0, words).None? <==> LastDigit(s, |s|, words).None?
  {
    FirstDigitSpec(s, 0, words);
    LastDigitSpec(s, |s|, words);
    if FirstDigit(s, 0, words).Some? {
      var t :| 0 <= t <= |s| && DigitStartingAt(s, t, words).Some?;
      if t < |s| && Text.IsAsciiDigit(s[t]) {
        assert DigitEndingAt(s, t + 1, words).Some?;
      } else {
        var k := WordAt(s, t, words, 0).value;
        var w := words[k];
        assert s[t + |w| - |w|..t + |w|] == w;
        WordEndingAtFound(s, t + |w|, words, 0, k);
        assert DigitEndingAt(s, t + |w|, words).Some?;
      }
    }
    if LastDigit(s, |s|, words).Some? {
      var t :| 0 <= t <= |s| && DigitEndingAt(s, t, words).Some?;
      if 0 < t && Text.IsAsciiDigit(s[t - 1]) {
        assert DigitStartingAt(s, t - 1, words).Some?;
      } else {
        var k := WordEndingAt(s, t, words, 0).value;
        var w := words[k];
        assert s[t - |w|..t - |w| + |w|] == w;
        WordAtFound(s, t - |w|, words, 0, k);
        assert DigitStartingAt(s, t - |w|, words).Some?;
      }
    }
  }

  // Both scans of `Data2::from_str` against the regex-free reading.

  /** A match at index `i` exactly when a token starts there ... */
  lemma MatchAtStarting(s: string, i: nat, words: seq<string>)
    ensures MatchAt(s, i, words).None? <==> DigitStartingAt(s, i, words).None?
  {
  }

  /** ... and the match parses to the token's digit. */
  lemma MatchAtStartingValue(s: string, i: nat, words: seq<string>, m: string, d: nat)
    requires SpellsDigits(words)
    requires MatchAt(s, i, words) == Some(m) && DigitStartingAt(s, i, words) == Some(d)
    ensures ParseDigit(m) == Ok(d)
  {
    if i < |s| && Text.IsAsciiDigit(s[i]) {
      ParseDigitChar(s[i]);
    }
  }

  /** The forward search finds a match exactly when the line has a
      token ... */
  lemma {:induction false} FindMatchFirst(s: string, words: seq<string>, i: nat)
    requires i <= |s|
    ensures FindMatch(s, words, i).None? <==> FirstDigit(s, i, words).None?
    decreases |s| - i
  {
    MatchAtStarting(s, i, words);
    if MatchAt(s, i, words).None? && i < |s| {
      FindMatchFirst(s, words, i + 1);
    }
  }

  /** ... and the match is the leftmost token. */
  lemma {:induction false} FindMatchFirstValue(s: string, words: seq<string>, i: nat, m: string, d: nat)
    requires i <= |s| && SpellsDigits(words)
    requires FindMatch(s, words, i) == Some(m) && FirstDigit(s, i, words) == Some(d)
    ensures ParseDigit(m) == Ok(d)
    decreases |s| - i
  {
    MatchAtStarting(s, i, words);
    if MatchAt(s, i, words).Some? {
      MatchAtStartingValue(s, i, words, m, d);
    } else {
      FindMatchFirstValue(s, words, i + 1, m, d);
    }
  }

  /** In the reversed line, `v` (that is `w` backwards) starts at index `p`
      exactly when `w` ends just before index `|s| - p` in the line. */
  lemma StartsAtReversed(s: string, p: nat, w: string, v: string)
    requires p <= |s|
    requires |v| == |w| && forall t :: 0 <= t < |w| ==> v[t] == w[|w| - 1 - t]
    ensures StartsAt(Seqs.Reverse(s), p, v) <==> EndsAt(s, |s| - p, w)
  {
    var r := Seqs.Reverse(s);
    var n := |s|;
    if p + |w| <= n {
      if StartsAt(r, p, v) {
        forall u | 0 <= u < |w|
          ensures s[n - p - |w| .. n - p][u] == w[u]
        {
          var t := |w| - 1 - u;
          assert r[p..p + |v|][t] == v[t];
        }
      }
      if EndsAt(s, n - p, w) {
        forall t | 0 <= t < |v|
          ensures r[p..p + |v|][t] == v[t]
        {
          var u := |w| - 1 - t;
          assert s[n - p - |w| .. n - p][u] == w[u];
        }
      }
    }
  }

  lemma {:induction false} WordAtReversed(s: string, p: nat, words: seq<string>, rwords: seq<string>, k: nat)
    requires p <= |s| && k <= |words| && Mirrored(words, rwords)
    ensures WordAt(Seqs.Reverse(s), p, rwords, k) == WordEndingAt(s, |s| - p, words, k)
    decreases |words| - k
  {
    if k < |words| {
      StartsAtReversed(s, p, words[k], rwords[k]);
      WordAtReversed(s, p, words, rwords, k + 1);
    }
  }

  /** In the reversed line, a match of the reversed words at index `p`
      exactly when a token ends just before index `|s| - p` of the line ... */
  lemma MatchAtReversed(s: string, p: nat, words: seq<string>, rwords: seq<string>)
    requires p <= |s| && Mirrored(words, rwords)
    ensures MatchAt(Seqs.Reverse(s), p, rwords).None? <==> DigitEndingAt(s, |s| - p, words).None?
  {
    var r := Seqs.Reverse(s);
    var n := |s|;
    WordAtReversed(s, p, words, rwords, 0);
    if p < n {
      assert r[p] == s[n - p - 1];
    }
  }

  /** ... and that match, turned round, parses to the token's digit. */
  lemma MatchAtReversedValue(s: string, p: nat, words: seq<string>, rwords: seq<string>, m: string, d: nat)
    requires p <= |s| && Mirrored(words, rwords) && SpellsDigits(words)
    requires MatchAt(Seqs.Reverse(s), p, rwords) == Some(m) && DigitEndingAt(s, |s| - p, words) == Some(d)
    ensures ParseDigit(Seqs.Reverse(m)) == Ok(d)
  {
    var r := Seqs.Reverse(s);
    var n := |s|;
    if p < n && Text.IsAsciiDigit(r[p]) {
      assert r[p] == s[n - p - 1];
      assert Seqs.Reverse(m) == [s[n - p - 1]];
      ParseDigitChar(s[n - p - 1]);
    } else {
      WordAtReversed(s, p, words, rwords, 0);
      var k := WordEndingAt(s, n - p, words, 0).value;
      if p < n {
        assert r[p] == s[n - p - 1];
      }
      assert m == rwords[k];
      assert Seqs.Reverse(m) == words[k];
    }
  }

  /** The search through the reversed line finds a match exactly when the
      line has a token ... */
  lemma {:induction false} FindMatchLast(s: string, p: nat, words: seq<string>, rwords: seq<string>)
    requires p <= |s| && Mirrored(words, rwords)
    ensures FindMatch(Seqs.Reverse(s), rwords, p).None? <==> LastDigit(s, |s| - p, words).None?
    decreases |s| - p
  {
    MatchAtReversed(s, p, words, rwords);
    if MatchAt(Seqs.Reverse(s), p, rwords).None? && p < |s| {
      FindMatchLast(s, p + 1, words, rwords);
    }
  }

  /** ... and the match, turned round, is the token that ends rightmost,
      overlapping tokens included. */
  lemma {:induction false} FindMatchLastValue(s: string, p: nat, words: seq<string>, rwords: seq<string>, m: string, d: nat)
    requires p <= |s| && Mirrored(words, rwords) && SpellsDigits(words)
    requires FindMatch(Seqs.Reverse(s), rwords, p) == Some(m) && LastDigit(s, |s| - p, words) == Some(d)
    ensures ParseDigit(Seqs.Reverse(m)) == Ok(d)
    decreases |s| - p
  {
    var r := Seqs.Reverse(s);
    MatchAtReversed(s, p, words, rwords);
    if MatchAt(r, p, rwords).Some? {
      MatchAtReversedValue(s, p, words, rwords, m, d);
    } else {
      assert p < |s| && FindMatch(r, rwords, p + 1) == Some(m);
      assert LastDigit(s, |s| - (p + 1), words) == Some(d);
      FindMatchLastValue(s, p + 1, words, rwords, m, d);
    }
  }

  /** A line reads as the digits of its leftmost and of its rightmost
      token, and fails exactly when it has no token. */
  lemma ReadLine2Spec(l: string)
    ensures ReadLine2(l).Ok? <==> FirstDigit(l, 0, Words).Some?
    ensures ReadLine2(l).Err? ==> ReadLine2(l).error == ParseError(NoDigit)
    ensures ReadLine2(l).Ok? ==> LastDigit(l, |l|, Words).Some?
    ensures ReadLine2(l).Ok? ==> ReadLine2(l).value == (FirstDigit(l, 0, Words).value, LastDigit(l, |l|, Words).value)
  {
    WordsMirrored(Words, ReversedWords);
    WordsSpellDigits(Words);
    ReadLine2Parts(l, Words, ReversedWords);
  }

  lemma ReadLine2Parts(l: string, words: seq<string>, rwords: seq<string>)
    requires words == Words && rwords == ReversedWords
    requires Mirrored(words, rwords) && SpellsDigits(words)
    ensures ReadLine2(l).Ok? <==> FirstDigit(l, 0, words).Some?
    ensures ReadLine2(l).Err? ==> ReadLine2(l).error == ParseError(NoDigit)
    ensures ReadLine2(l).Ok? ==> LastDigit(l, |l|, words).Some?
    ensures ReadLine2(l).Ok? ==> ReadLine2(l).value == (FirstDigit(l, 0, words).value, LastDigit(l, |l|, words).value)
  {
    FindMatchFirst(l, words, 0);
    FindMatchLast(l, 0, words, rwords);
    FirstDigitLastDigit(l, words);
    var first := FindMatch(l, words, 0);
    var last := FindMatch(Seqs.Reverse(l), rwords, 0);
    if first.Some? {
      FindMatchFirstValue(l, words, 0, first.value, FirstDigit(l, 0, words).value);
      FindMatchLastValue(l, 0, words, rwords, last.value, LastDigit(l, |l|, words).value);
    }
  }

  /** The intended value of a line for part 2, when it has a token. */
  function Calibration2(l: string): Option<int> {
    match FirstDigit(l, 0, Words)
    case None => None
    case Some(first) =>
      match LastDigit(l, |l|, Words)
      case None => None
      case Some(last) => Some(10 * first + last)
  }

  // ---------------------------------------------------------------------
  // Whole documents

  /** A document whose every line has a digit reads without error, and
      part 1 adds up the intended values of its lines. */
  lemma Part1OfLines(lines: seq<string>, values: seq<int>)
    requires |values| == |lines|
    requires forall k :: 0 <= k < |lines| ==> Text.IsLine(lines[k]) && Calibration1(lines[k]) == Some(values[k])
    ensures Read1(Text.Unlines(lines)).Ok?
    ensures Part1(Read1(Text.Unlines(lines)).value) == Seqs.Sum(values)
  {
    Text.LinesUnlines(lines);
    forall k | 0 <= k < |lines|
      ensures ReadLine1(lines[k]).Ok?
    {
      ReadLine1Calibration(lines[k]);
    }
    var items := Read1(Text.Unlines(lines)).value;
    Part1Calibration(lines, items, values);
  }

  /** A document whose every line has a token reads without error, and
      part 2 adds up the intended values of its lines. */
  lemma Part2OfLines(lines: seq<string>, values: seq<int>)
    requires |values| == |lines|
    requires forall k :: 0 <= k < |lines| ==> Text.IsLine(lines[k]) && Calibration2(lines[k]) == Some(values[k])
    ensures Read2(Text.Unlines(lines)).Ok?
    ensures Part2(Read2(Text.Unlines(lines)).value) == Seqs.Sum(values)
  {
    Text.LinesUnlines(lines);
    forall k | 0 <= k < |lines|
      ensures ReadLine2(lines[k]).Ok?
    {
      ReadLine2Spec(lines[k]);
    }
    Part2Calibration(lines, Read2(Text.Unlines(lines)).value, values);
  }

  /** Part 2 adds up the intended value of every line. */
  lemma Part2Calibration(lines: seq<string>, items: seq<(nat, nat)>, values: seq<int>)
    requires MapAll(ReadLine2, lines) == Ok(items)
    requires |values| == |lines|
    requires forall k :: 0 <= k < |lines| ==> Calibration2(lines[k]) == Some(values[k])
    ensures Part2(items) == Seqs.Sum(values)
  {
    var image := Seqs.Image(Value2, items);
    forall k | 0 <= k < |lines|
      ensures image[k] == values[k]
    {
      ReadLine2Spec(lines[k]);
    }
    assert image == values;
  }

  // ---------------------------------------------------------------------
  // The examples from the puzzle text

  /** "twone": the leftmost token is "two" and the rightmost "one", even
      though the two overlap. */
  lemma Twone()
    ensures Calibration2("twone") == Some(21)
  {
    var s := "twone";
    assert StartsAt(s, 0, Words[1]);
    assert WordAt(s, 0, Words, 0) == Some(1);
    assert EndsAt(s, 5, Words[0]);
    assert WordEndingAt(s, 5, Words, 0) == Some(0);
    assert FirstDigit(s, 0, Words) == Some(2);
    assert LastDigit(s, |s|, Words) == Some(1);
  }

  lemma SampleCalibration1a()
    ensures Calibration1("1abc2") == Some(12)
  {
    var l := "1abc2";
    assert FindDigit(l, 0) == Some(0);
    assert RFindDigit(l, 0, |l|) == Some(4);
  }

  lemma SampleCalibration1b()
    ensures Calibration1("pqr3stu8vwx") == Some(38)
  {
    var l := "pqr3stu8vwx";
    assert FindDigit(l, 0) == Some(3);
    assert RFindDigit(l, 0, 8) == Some(7);
    assert RFindDigit(l, 0, 9) == Some(7);
    assert RFindDigit(l, 0, 10) == Some(7);
    assert RFindDigit(l, 0, 11) == Some(7);
  }

  lemma SampleCalibration1c()
    ensures Calibration1("a1b2c3d4e5f") == Some(15)
  {
    var l := "a1b2c3d4e5f";
    assert FindDigit(l, 0) == Some(1);
    assert RFindDigit(l, 0, |l|) == Some(9);
  }

  lemma SampleCalibration1d()
    ensures Calibration1("treb7uchet") == Some(77)
  {
    var l := "treb7uchet";
    assert FindDigit(l, 0) == Some(4);
    assert RFindDigit(l, 0, 5) == Some(4);
    assert RFindDigit(l, 0, 6) == Some(4);
    assert RFindDigit(l, 0, 7) == Some(4);
    assert RFindDigit(l, 0, 8) == Some(4);
    assert RFindDigit(l, 0, 9) == Some(4);
    assert RFindDigit(l, 0, 10) == Some(4);
  }

  /** Part 1 on the first example gives 142. */
  lemma SamplePart1(lines: seq<string>)
    requires lines == ["1abc2", "pqr3stu8vwx", "a1b2c3d4e5f", "treb7uchet"]
    ensures Read1(Text.Unlines(lines)).Ok?
    ensures Part1(Read1(Text.Unlines(lines)).value) == 142
  {
    var values := [12, 38, 15, 77];
    SampleCalibration1a();
    SampleCalibration1b();
    SampleCalibration1c();
    SampleCalibration1d();
    forall k | 0 <= k < |lines|
      ensures Text.IsLine(lines[k]) && Calibration1(lines[k]) == Some(values[k])
    {
    }
    Part1OfLines(lines, values);
    assert Seqs.Sum(values) == 142;
  }
}
