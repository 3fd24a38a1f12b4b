/** Day 6, "Wait For It": a boat race lasts `time` milliseconds.  Holding
    the button for the first `c` of them (the charge) gives the boat speed
    `c` for the remaining `time - c`, so it travels `(time - c) * c`.  A
    charge wins when that beats the record `distance`.  Part 1 multiplies
    the numbers of winning charges of all races on the sheet; part 2 reads
    the sheet as one long race and counts its winning charges from the roots
    of `c * c - time * c + distance`. */
module Day06 {
  import opened Wrappers
  import Text
  import Seqs
  import Arith

  datatype Race = Race(time: nat, distance: nat)

  // ---------------------------------------------------------------------
  // Reading and writing the sheet

  /** `u64::from_str(word).unwrap()` (the collected `Result` is unwrapped). */
  function ReadNat(word: string): (r: Result<nat>)
    ensures r.Err? ==> r.error == Panic(UnwrapErr)
  {
    match Text.ParseNat(word)
    case Some(n) => Ok(n)
    case None => Err(Panic(UnwrapErr))
  }

  /** The whitespace-separated numbers after the first colon of a line. */
  function ReadNumbers(line: string): Result<seq<nat>> {
    match Text.SplitOnce(line, ':')
    case None => Err(Panic(UnwrapNone))
    case Some((_, rest)) => MapAll(ReadNat, Text.SplitWhitespace(rest))
  }

  /** `zip`: the i-th entries of both lists side by side, as many pairs as
      the shorter list has entries. */
  function Zip(times: seq<nat>, distances: seq<nat>): (races: seq<Race>)
    ensures |races| == if |times| <= |distances| then |times| else |distances|
    ensures forall i :: 0 <= i < |races| ==> races[i] == Race(times[i], distances[i])
  {
    if |times| == 0 || |distances| == 0 then []
    else [Race(times[0], distances[0])] + Zip(times[1..], distances[1..])
  }

  /** `Data::from_str`: the times on the first line, the record distances
      on the second, paired by position.  A missing line or colon and a
      malformed number panic; further lines are ignored. */
  function Read(input: string): (r: Result<seq<Race>>)
    ensures var ls := Text.Lines(input);
      r.Ok? <==> |ls| >= 2 && ReadNumbers(ls[0]).Ok? && ReadNumbers(ls[1]).Ok?
    ensures var ls := Text.Lines(input);
      r.Ok? ==>
        var times, distances := ReadNumbers(ls[0]).value, ReadNumbers(ls[1]).value;
        (|r.value| == |times| || |r.value| == |distances|)
        && |r.value| <= |times| && |r.value| <= |distances|
        && forall i :: 0 <= i < |r.value| ==> r.value[i] == Race(times[i], distances[i])
  {
    var ls := Text.Lines(input);
    if |ls| == 0 then Err(Panic(UnwrapNone))
    else
      var times :- ReadNumbers(ls[0]);
      if |ls| < 2 then Err(Panic(UnwrapNone))
      else
        var distances :- ReadNumbers(ls[1]);
        Ok(Zip(times, distances))
  }

  function ShowNats(ns: seq<nat>): (ws: seq<string>)
    ensures |ws| == |ns| && forall k :: 0 <= k < |ns| ==> ws[k] == Text.ShowNat(ns[k])
  {
    if |ns| == 0 then [] else [Text.ShowNat(ns[0])] + ShowNats(ns[1..])
  }

  function Times(races: seq<Race>): (ts: seq<nat>)
    ensures |ts| == |races| && forall i :: 0 <= i < |races| ==> ts[i] == races[i].time
  {
    seq(|races|, i requires 0 <= i < |races| => races[i].time)
  }

  function Distances(races: seq<Race>): (ds: seq<nat>)
    ensures |ds| == |races| && forall i :: 0 <= i < |races| ==> ds[i] == races[i].distance
  {
    seq(|races|, i requires 0 <= i < |races| => races[i].distance)
  }

  /** A labelled line of numbers separated by single spaces. */
  function ShowLine(caption: string, ns: seq<nat>): string {
    caption + ": " + Text.Unwords(ShowNats(ns))
  }

  /** The sheet: a `Time:` line and a `Distance:` line. */
  function Show(races: seq<Race>): string {
    Text.Unlines([ShowLine("Time", Times(races)), ShowLine("Distance", Distances(races))])
  }

  /** A caption that cannot end its line early or hide the colon. */
  predicate Caption(caption: string) {
    ':' !in caption && '\n' !in caption && '\r' !in caption
  }

  lemma Captions()
    ensures Caption("Time") && Caption("Distance")
  {
  }

  /** A labelled line is a line, and its numbers read back. */
  lemma ReadShowLine(caption: string, ns: seq<nat>)
    requires Caption(caption)
    ensures Text.IsLine(ShowLine(caption, ns))
    ensures ReadNumbers(ShowLine(caption, ns)) == Ok(ns)
  {
    var ws := ShowNats(ns);
    forall k | 0 <= k < |ws|
      ensures |ws[k]| > 0 && Text.NoWhitespace(ws[k]) && ':' !in ws[k]
      ensures '\n' !in ws[k] && '\r' !in ws[k]
      ensures ReadNat(ws[k]) == Ok(ns[k])
    {
      Text.ParseShowNat(ns[k]);
    }
    Text.NotInUnwords(ws, '\n');
    Text.NotInUnwords(ws, '\r');
    var rest := " " + Text.Unwords(ws);
    var line := ShowLine(caption, ns);
    assert line == caption + [':'] + rest;
    assert '\r' !in line && '\n' !in line;
    assert line[|line| - 1] in line;
    Text.SplitOnceAt(caption, ':', rest);
    assert rest + "" == rest;
    Text.SplitWhitespacePadded(" ", ws, "");
    MapAllOk(ReadNat, ws, ns);
  }

  /** The two lines of a written sheet. */
  lemma ShowLines(races: seq<Race>)
    ensures Text.Lines(Show(races)) == [ShowLine("Time", Times(races)), ShowLine("Distance", Distances(races))]
  {
    Captions();
    TwoLines("Time", Times(races), "Distance", Distances(races));
  }

  lemma TwoLines(c0: string, ns0: seq<nat>, c1: string, ns1: seq<nat>)
    requires Caption(c0) && Caption(c1)
    ensures Text.Lines(Text.Unlines([ShowLine(c0, ns0), ShowLine(c1, ns1)])) == [ShowLine(c0, ns0), ShowLine(c1, ns1)]
  {
    ReadShowLine(c0, ns0);
    ReadShowLine(c1, ns1);
    Text.LinesUnlines([ShowLine(c0, ns0), ShowLine(c1, ns1)]);
  }

  lemma ZipUnzip(races: seq<Race>)
    ensures Zip(Times(races), Distances(races)) == races
  {
  }

  /** Every sheet written out reads back as its races. */
  lemma ReadShow(races: seq<Race>)
    ensures Read(Show(races)) == Ok(races)
  {
    ShowLines(races);
    Captions();
    ReadShowLine("Time", Times(races));
    ReadShowLine("Distance", Distances(races));
    ZipUnzip(races);
  }

  // ---------------------------------------------------------------------
  // Reading the sheet as one race (part 2)

  /** `chars().filter(char::is_ascii_digit)`. */
  function DigitsOf(s: string): string {
    if |s| == 0 then ""
    else (if Text.IsAsciiDigit(s[0]) then [s[0]] else "") + DigitsOf(s[1..])
  }

  /** The digits after the first colon of a line as one number. */
  function ReadKerned(line: string): Result<nat> {
    match Text.SplitOnce(line, ':')
    case None => Err(Panic(UnwrapNone))
    case Some((_, rest)) =>
      match Text.ParseNat(DigitsOf(rest))
      case Some(n) => Ok(n)
      case None => Err(Panic(UnwrapErr))
  }

  /** `read_part2`: one time and one record, each from all digits of its
      line with the spaces between them ignored. */
  function ReadPart2(input: string): Result<Race> {
    var ls := Text.Lines(input);
    if |ls| == 0 then Err(Panic(UnwrapNone))
    else
      var time :- ReadKerned(ls[0]);
      if |ls| < 2 then Err(Panic(UnwrapNone))
      else
        var distance :- ReadKerned(ls[1]);
        Ok(Race(time, distance))
  }

  /** The numbers written next to each other without spaces. */
  function Kerned(ns: seq<nat>): (s: string)
    ensures Text.AllDigits(s) && (|ns| > 0 ==> |s| > 0)
  {
    if |ns| == 0 then "" else Text.ShowNat(ns[0]) + Kerned(ns[1..])
  }

  lemma {:induction false} DigitsOfAppend(a: string, b: string)
    ensures DigitsOf(a + b) == DigitsOf(a) + DigitsOf(b)
  {
    if |a| > 0 {
      assert (a + b)[1..] == a[1..] + b;
      DigitsOfAppend(a[1..], b);
    } else {
      assert a + b == b;
    }
  }

  lemma {:induction false} DigitsOfDigits(s: string)
    requires Text.AllDigits(s)
    ensures DigitsOf(s) == s
  {
    if |s| > 0 {
      DigitsOfDigits(s[1..]);
    }
  }

  /** The words written next to each other without spaces. */
  function Concat(ws: seq<string>): string {
    if |ws| == 0 then "" else ws[0] + Concat(ws[1..])
  }

  /** Dropping the spaces between words of digits concatenates them. */
  lemma {:induction false} DigitsOfUnwords(ws: seq<string>)
    requires forall k :: 0 <= k < |ws| ==> Text.AllDigits(ws[k])
    ensures DigitsOf(Text.Unwords(ws)) == Concat(ws)
  {
    if |ws| > 0 {
      var w := ws[0];
      DigitsOfDigits(w);
      if |ws| == 1 {
        assert Concat(ws) == w + "";
      } else {
        var tail := Text.Unwords(ws[1..]);
        assert Text.Unwords(ws) == w + " " + tail;
        DigitsOfAppend(w + " ", tail);
        DigitsOfAppend(w, " ");
        DigitsOfUnwords(ws[1..]);
      }
    }
  }

  lemma {:induction false} KernedConcat(ns: seq<nat>)
    ensures Kerned(ns) == Concat(ShowNats(ns))
  {
    if |ns| > 0 {
      assert ShowNats(ns)[1..] == ShowNats(ns[1..]);
      KernedConcat(ns[1..]);
    }
  }

  lemma ReadKernedLine(caption: string, ns: seq<nat>)
    requires Caption(caption)
    ensures ReadKerned(ShowLine(caption, ns)) == ReadNat(Kerned(ns))
  {
    var rest := " " + Text.Unwords(ShowNats(ns));
    assert ShowLine(caption, ns) == caption + [':'] + rest;
    Text.SplitOnceAt(caption, ':', rest);
    var ws := ShowNats(ns);
    DigitsOfAppend(" ", Text.Unwords(ws));
    DigitsOfUnwords(ws);
    KernedConcat(ns);
    assert DigitsOf(rest) == Kerned(ns);
  }

  /** The value of the kerned numbers. */
  function KernedValue(ns: seq<nat>): nat {
    Text.DigitsValue(Kerned(ns))
  }

  lemma ReadKernedValue(ns: seq<nat>)
    ensures ReadNat(Kerned(ns)) == if |ns| == 0 then Err(Panic(UnwrapErr)) else Ok(KernedValue(ns))
  {
    if |ns| > 0 {
      assert Kerned(ns)[0] != '+';
    }
  }

  /** A written sheet with at least one race reads, as one race, as its
      times kerned into one time and its records into one record; an empty
      sheet has no digits to parse. */
  lemma ReadPart2Show(races: seq<Race>)
    ensures ReadPart2(Show(races)) == if |races| == 0 then Err(Panic(UnwrapErr)) else
      Ok(Race(KernedValue(Times(races)), KernedValue(Distances(races))))
  {
    ShowLines(races);
    Captions();
    ReadKernedLine("Time", Times(races));
    ReadKernedLine("Distance", Distances(races));
    ReadKernedValue(Times(races));
    ReadKernedValue(Distances(races));
  }

  // ---------------------------------------------------------------------
  // Winning charges (part 1)

  /** How far the boat gets in a race of `time` after a charge of
      `charge`. */
  function Distance(time: int, charge: int): int {
    (time - charge) * charge
  }

  predicate Beats(race: Race, charge: int) {
    Distance(race.time, charge) > race.distance
  }

  /** The number of winning charges below `n`. */
  function WinsBelow(race: Race, n: nat): nat {
    if n == 0 then 0 else WinsBelow(race, n - 1) + (if Beats(race, n - 1) then 1 else 0)
  }

  /** `(0..=time).map(..).filter(|dist| dist > distance).count()`. */
  function Wins(race: Race): nat {
    WinsBelow(race, race.time + 1)
  }

  /** The winning charges below `n`, as a set. */
  function WinningBelow(race: Race, n: nat): set<nat> {
    set c: nat | c < n && Beats(race, c)
  }

  /** The count is the number of charges from 0 to `time` that win. */
  lemma {:induction false} WinsBelowCounts(race: Race, n: nat)
    ensures WinsBelow(race, n) == |WinningBelow(race, n)|
  {
    if n > 0 {
      WinsBelowCounts(race, n - 1);
      var below := WinningBelow(race, n - 1);
      assert n - 1 !in below;
      if Beats(race, n - 1) {
        assert WinningBelow(race, n) == below + {n - 1};
      } else {
        assert WinningBelow(race, n) == below;
      }
    }
  }

  lemma WinsCounts(race: Race)
    ensures Wins(race) == |set c: nat | c <= race.time && Beats(race, c)|
  {
    WinsBelowCounts(race, race.time + 1);
    assert WinningBelow(race, race.time + 1) == set c: nat | c <= race.time && Beats(race, c);
  }

  /** `part1`: the winning counts of all races and their product. */
  function Part1(races: seq<Race>): (r: (int, seq<int>)) {
    var combos := Seqs.Image(race => Wins(race), races);
    (Seqs.Product(combos), combos)
  }

  // ---------------------------------------------------------------------
  // The winning charges form an interval

  /** The distance is a downward parabola in the charge. */
  lemma DistanceGap(time: int, a: int, b: int)
    ensures Distance(time, b) - Distance(time, a) == (b - a) * (time - a - b)
  {
    calc {
      Distance(time, b) - Distance(time, a);
      (time - b) * b - (time - a) * a;
      time * b - b * b - time * a + a * a;
      (b - a) * (time - a - b);
    }
  }

  /** `lo` and `hi` reach `goal` and their outer neighbours do not. */
  predicate Interval(time: int, goal: int, lo: int, hi: int) {
    Distance(time, lo) >= goal && Distance(time, hi) >= goal
    && Distance(time, lo - 1) < goal && Distance(time, hi + 1) < goal
  }

  /** Charges that reach a goal form an interval: once its ends and their
      outer neighbours are known, every other charge is classified. */
  lemma ReachInterval(time: int, goal: int, lo: int, hi: int, c: int)
    requires Interval(time, goal, lo, hi)
    ensures 2 * lo <= time <= 2 * hi
    ensures Distance(time, c) >= goal <==> lo <= c <= hi
  {
    DistanceGap(time, lo - 1, lo);
    DistanceGap(time, hi, hi + 1);
    if c < lo - 1 {
      DistanceGap(time, c, lo - 1);
      Arith.MulNonNegative(lo - 1 - c, time - c - (lo - 1));
    } else if c > hi + 1 {
      DistanceGap(time, hi + 1, c);
      Arith.MulNonNegative(c - (hi + 1), c + hi + 1 - time);
    } else if lo <= c <= hi {
      if c + lo <= time {
        DistanceGap(time, lo, c);
        Arith.MulNonNegative(c - lo, time - lo - c);
      } else {
        DistanceGap(time, c, hi);
        Arith.MulNonNegative(hi - c, c + hi - time);
      }
    }
  }

  lemma ReachIntervalAll(time: int, goal: int, lo: int, hi: int)
    requires Interval(time, goal, lo, hi)
    ensures 2 * lo <= time <= 2 * hi
    ensures forall c :: Distance(time, c) >= goal <==> lo <= c <= hi
  {
    ReachInterval(time, goal, lo, hi, lo);
    forall c ensures Distance(time, c) >= goal <==> lo <= c <= hi {
      ReachInterval(time, goal, lo, hi, c);
    }
  }

  lemma {:induction false} WinsBelowInterval(race: Race, lo: int, hi: int, n: nat)
    requires Interval(race.time, race.distance + 1, lo, hi)
    ensures WinsBelow(race, n) == if n <= lo then 0 else if n <= hi + 1 then n - lo else hi - lo + 1
  {
    ReachIntervalAll(race.time, race.distance + 1, lo, hi);
    if n > 0 {
      WinsBelowInterval(race, lo, hi, n - 1);
    }
  }

  /** The integer postcondition of `part2`: when `c1` and `c2` win while
      `c1 - 1` and `c2 + 1` do not, then `c2 - c1 + 1` counts the winning
      charges, and `c1 - 1` and `c2 + 1` are charges of the race. */
  lemma CountBetweenBounds(race: Race, c1: int, c2: int)
    requires Beats(race, c1) && Beats(race, c2)
    requires Distance(race.time, c1 - 1) <= race.distance
    requires Distance(race.time, c2 + 1) <= race.distance
    ensures 0 < c1 <= c2 < race.time
    ensures Wins(race) == c2 - c1 + 1
  {
    var t, d := race.time, race.distance;
    ReachIntervalAll(t, d + 1, c1, c2);
    assert Distance(t, 0) == 0 && Distance(t, t) == 0;
    WinsBelowInterval(race, c1, c2, t + 1);
  }

  /** No charge up to `n` wins: none is counted. */
  lemma {:induction false} WinsBelowNone(race: Race, n: nat)
    requires forall c :: 0 <= c < n ==> !Beats(race, c)
    ensures WinsBelow(race, n) == 0
  {
    if n > 0 {
      WinsBelowNone(race, n - 1);
    }
  }

  // ---------------------------------------------------------------------
  // Searching for the ends of the interval

  /** The least charge from `c` to `time` whose distance reaches `goal`. */
  function FirstReaching(time: nat, goal: int, c: nat): (r: Option<nat>)
    ensures r.Some? ==> c <= r.value <= time && Distance(time, r.value) >= goal
    ensures r.Some? ==> forall j :: c <= j < r.value ==> Distance(time, j) < goal
    ensures r.None? ==> forall j :: c <= j <= time ==> Distance(time, j) < goal
    decreases time + 1 - c
  {
    if c > time then None
    else if Distance(time, c) >= goal then Some(c)
    else FirstReaching(time, goal, c + 1)
  }

  /** The greatest charge from 0 to `c` whose distance reaches `goal`. */
  function LastReaching(time: nat, goal: int, c: nat): (r: Option<nat>)
    ensures r.Some? ==> r.value <= c && Distance(time, r.value) >= goal
    ensures r.Some? ==> forall j :: r.value < j <= c ==> Distance(time, j) < goal
    ensures r.None? ==> forall j :: 0 <= j <= c ==> Distance(time, j) < goal
  {
    if Distance(time, c) >= goal then Some(c)
    else if c == 0 then None
    else LastReaching(time, goal, c - 1)
  }

  /** When some charge reaches the goal, the searches find the two ends of
      the interval of such charges. */
  lemma ReachingEnds(time: nat, goal: nat)
    requires FirstReaching(time, goal, 0).Some?
    ensures LastReaching(time, goal, time).Some?
    ensures Interval(time, goal, FirstReaching(time, goal, 0).value, LastReaching(time, goal, time).value)
  {
    var lo: int := FirstReaching(time, goal, 0).value;
    var hi := LastReaching(time, goal, time);
    assert hi.Some?;
    if lo == 0 {
      assert Distance(time, lo - 1) == -1 - time;
    } else {
      assert Distance(time, lo - 1) < goal;
    }
    if hi.value == time {
      assert Distance(time, hi.value + 1) == -1 - time;
    } else {
      assert Distance(time, hi.value + 1) < goal;
    }
  }

  // ---------------------------------------------------------------------
  // Part 2 as computed, and as intended

  const SubtractOverflow := "attempt to subtract with overflow"

  /** The two charges `part2` computes in floating point, taken in exact
      arithmetic: the ceiling of the lower root and the floor of the upper
      root of `c * c - time * c + distance` (LowerRootCeiling,
      UpperRootFloor).  When the roots are not real the square root is NaN
      and both casts to `u64` give 0. */
  function RootCharges(race: Race): (nat, nat) {
    var lo := FirstReaching(race.time, race.distance, 0);
    var hi := LastReaching(race.time, race.distance, race.time);
    (if lo.Some? then lo.value else 0, if hi.Some? then hi.value else 0)
  }

  /** `r1` and `r2` are the roots of `c * c - time * c + distance`. */
  ghost predicate IsRoots(race: Race, r1: real, r2: real) {
    r1 <= r2 && r1 + r2 == race.time as real && r1 * r2 == race.distance as real
  }

  /** A charge reaches the record exactly when it lies between the roots. */
  lemma BetweenRoots(race: Race, r1: real, r2: real, c: int)
    requires IsRoots(race, r1, r2)
    ensures Distance(race.time, c) >= race.distance <==> r1 <= c as real <= r2
  {
    var x, y := c as real - r1, c as real - r2;
    assert x * y == race.distance as real - Distance(race.time, c) as real;
    if y <= 0.0 <= x {
      assert x * y <= 0.0 by { assert x * -y >= 0.0; }
    } else if y > 0.0 {
      assert x * y > 0.0;
    } else {
      assert x < 0.0 && y < 0.0;
      assert -x * -y > 0.0;
    }
  }

  lemma NonNegativeFactor(x: real, y: real)
    requires y > 0.0 && x * y >= 0.0
    ensures x >= 0.0
  {
  }

  lemma RootsNonNegative(race: Race, r1: real, r2: real)
    requires IsRoots(race, r1, r2)
    ensures 0.0 <= r1 && r2 <= race.time as real
  {
    if r2 > 0.0 {
      NonNegativeFactor(r1, r2);
    }
  }

  /** Real roots have a non-negative discriminant. */
  lemma Discriminant(race: Race, r1: real, r2: real)
    requires IsRoots(race, r1, r2)
    ensures race.time * race.time >= 4 * race.distance
  {
    var t, d := race.time as real, race.distance as real;
    assert (r1 - r2) * (r1 - r2) >= 0.0;
    assert (r1 - r2) * (r1 - r2) == (r1 + r2) * (r1 + r2) - 4.0 * (r1 * r2);
    assert t * t - 4.0 * d >= 0.0;
    assert (race.time * race.time) as real == t * t;
  }

  /** With a non-negative discriminant the charge `time / 2` reaches the
      record. */
  lemma HalfReaches(time: nat, distance: nat)
    requires time * time >= 4 * distance
    ensures Distance(time, time / 2) >= distance
  {
    var c := time / 2;
    if time == 2 * c {
      assert Distance(time, c) == c * c;
      assert time * time == 4 * (c * c);
    } else {
      assert time == 2 * c + 1;
      assert Distance(time, c) == c * c + c;
      assert time * time == 4 * (c * c + c) + 1;
    }
  }

  /** Real roots leave room for a charge that reaches the record: the one
      nearest `time / 2`. */
  lemma RootsReached(race: Race, r1: real, r2: real)
    requires IsRoots(race, r1, r2)
    ensures FirstReaching(race.time, race.distance, 0).Some?
  {
    Discriminant(race, r1, r2);
    HalfReaches(race.time, race.distance);
    var c := race.time / 2;
    assert 0 <= c <= race.time;
  }

  /** The first charge reaching the record is the ceiling of the lower
      root. */
  lemma LowerRootCeiling(race: Race, r1: real, r2: real)
    requires IsRoots(race, r1, r2)
    ensures FirstReaching(race.time, race.distance, 0).Some?
    ensures var c1 := FirstReaching(race.time, race.distance, 0).value;
      (c1 - 1) as real < r1 <= c1 as real
  {
    RootsReached(race, r1, r2);
    RootsNonNegative(race, r1, r2);
    var c1 := FirstReaching(race.time, race.distance, 0).value;
    BetweenRoots(race, r1, r2, c1);
    if c1 > 0 {
      BetweenRoots(race, r1, r2, c1 - 1);
    }
  }

  /** The last charge reaching the record is the floor of the upper root. */
  lemma UpperRootFloor(race: Race, r1: real, r2: real)
    requires IsRoots(race, r1, r2)
    ensures LastReaching(race.time, race.distance, race.time).Some?
    ensures var c2 := LastReaching(race.time, race.distance, race.time).value;
      c2 as real <= r2 < (c2 + 1) as real
  {
    RootsReached(race, r1, r2);
    RootsNonNegative(race, r1, r2);
    ReachingEnds(race.time, race.distance);
    var c2 := LastReaching(race.time, race.distance, race.time).value;
    BetweenRoots(race, r1, r2, c2);
    BetweenRoots(race, r1, r2, c2 + 1);
  }

  /** `part2` as written: the four assertions about the computed charges,
      with the `u64` subtractions `c1 - 1`, `t - (c2 + 1)` and `c2 - c1`
      panicking below zero, then `c2 - c1 + 1`. */
  function Part2AsWritten(race: Race): Result<nat> {
    var t, d := race.time, race.distance;
    var (c1, c2) := RootCharges(race);
    if !(Distance(t, c1) > d) then Err(Panic("assertion failed: (t - c1) * c1 > distance"))
    else if c1 == 0 then Err(Panic(SubtractOverflow))
    else if !(Distance(t, c1 - 1) < d) then Err(Panic("assertion failed: (t - (c1 - 1)) * (c1 - 1) < distance"))
    else if !(Distance(t, c2) > d) then Err(Panic("assertion failed: (t - c2) * c2 > distance"))
    else if c2 + 1 > t then Err(Panic(SubtractOverflow))
    else if !(Distance(t, c2 + 1) < d) then Err(Panic("assertion failed: (t - (c2 + 1)) * (c2 + 1) < distance"))
    else if c2 < c1 then Err(Panic(SubtractOverflow))
    else Ok((c2 - c1 + 1) as nat)
  }

  /** Some charge exactly equals the record. */
  predicate Tied(race: Race) {
    exists c :: 0 <= c <= race.time && Distance(race.time, c) == race.distance
  }

  /** `part2` succeeds exactly when some charge wins and none ties the
      record, and then returns the number of winning charges. */
  lemma Part2AsWrittenSpec(race: Race)
    ensures Part2AsWritten(race).Ok? <==> Wins(race) > 0 && !Tied(race)
    ensures Part2AsWritten(race).Ok? ==> Part2AsWritten(race).value == Wins(race)
  {
    var t, d := race.time, race.distance;
    var first := FirstReaching(t, d, 0);
    if first.None? {
      forall c | 0 <= c < t + 1 ensures !Beats(race, c) {
      }
      WinsBelowNone(race, t + 1);
      assert Distance(t, 0) == 0;
    } else {
      ReachingEnds(t, d);
      var c1, c2 := first.value, LastReaching(t, d, t).value;
      ReachIntervalAll(t, d, c1, c2);
      if Distance(t, c1) > d && Distance(t, c2) > d {
        CountBetweenBounds(race, c1, c2);
        if Tied(race) {
          var c :| 0 <= c <= t && Distance(t, c) == d;
          ReachIntervalAll(t, d + 1, c1, c2);
        }
      } else {
        assert Tied(race) by {
          if Distance(t, c1) == d {
            assert 0 <= c1 <= t;
          } else {
            assert 0 <= c2 <= t && Distance(t, c2) == d;
          }
        }
      }
    }
  }

  /** Evidently intended: the number of charges between the first and the
      last winning charge, and none when no charge wins. */
  function Part2(race: Race): nat {
    var lo := FirstReaching(race.time, race.distance + 1, 0);
    if lo.None? then 0
    else
      var hi := LastReaching(race.time, race.distance + 1, race.time);
      assert hi.Some? && lo.value <= hi.value;
      hi.value - lo.value + 1
  }

  /** The corrected part 2 counts the winning charges, whatever the race. */
  lemma Part2Counts(race: Race)
    ensures Part2(race) == Wins(race)
  {
    var t, d := race.time, race.distance;
    var lo := FirstReaching(t, d + 1, 0);
    if lo.None? {
      WinsBelowNone(race, t + 1);
    } else {
      ReachingEnds(t, d + 1);
      CountBetweenBounds(race, lo.value, LastReaching(t, d + 1, t).value);
    }
  }

  /** Where no charge ties the record, part 2 as written agrees with the
      corrected one, or panics when no charge wins at all. */
  lemma Part2Agrees(race: Race)
    requires !Tied(race)
    ensures Wins(race) > 0 ==> Part2AsWritten(race) == Ok(Part2(race))
    ensures Wins(race) == 0 ==> Part2AsWritten(race).Err?
  {
    Part2AsWrittenSpec(race);
    Part2Counts(race);
  }

  // ---------------------------------------------------------------------
  // The sample sheet and the tie

  const SampleRaces := [Race(7, 9), Race(15, 40), Race(30, 200)]

  lemma SampleWins(races: seq<Race>)
    requires races == SampleRaces
    ensures Seqs.Image(race => Wins(race), races) == [4, 8, 9]
  {
    CountBetweenBounds(races[0], 2, 5);
    CountBetweenBounds(races[1], 4, 11);
    CountBetweenBounds(races[2], 11, 19);
  }

  /** Part 1 of the sample sheet: 4, 8 and 9 ways to win, 288 in all. */
  lemma Part1Sample()
    ensures Read(Show(SampleRaces)) == Ok(SampleRaces)
    ensures Part1(SampleRaces) == (288, [4, 8, 9])
  {
    ReadShow(SampleRaces);
    SampleWins(SampleRaces);
    assert Seqs.Product([4, 8, 9]) == 288;
  }

  lemma SampleKerned()
    ensures KernedValue([7, 15, 30]) == 71530
    ensures KernedValue([9, 40, 200]) == 940200
  {
    KernedTimes();
    KernedDistances();
    Text.DigitsValueShow(71530);
    Text.DigitsValueShow(940200);
  }

  lemma KernedTimes()
    ensures Kerned([7, 15, 30]) == Text.ShowNat(71530)
  {
    assert Text.ShowNat(15) == "15";
    assert Text.ShowNat(30) == "30";
    assert Text.ShowNat(71530) == "71530";
  }

  lemma KernedDistances()
    ensures Kerned([9, 40, 200]) == Text.ShowNat(940200)
  {
    assert Text.ShowNat(40) == "40";
    assert Text.ShowNat(200) == "200";
    assert Text.ShowNat(940200) == "940200";
  }

  lemma SampleLongRace(race: Race)
    requires race == Race(71530, 940200)
    ensures Part2AsWritten(race) == Ok(71503)
    ensures Wins(race) == 71503
  {
    var t, d := race.time, race.distance;
    assert Interval(t, d, 14, 71516);
    ReachIntervalAll(t, d, 14, 71516);
    assert FirstReaching(t, d, 0) == Some(14);
    assert LastReaching(t, d, t) == Some(71516);
    CountBetweenBounds(race, 14, 71516);
  }

  /** Part 2 of the sample sheet: one race of 71530 ms with record 940200,
      won by 71503 charges. */
  lemma Part2Sample()
    ensures ReadPart2(Show(SampleRaces)) == Ok(Race(71530, 940200))
    ensures Part2AsWritten(Race(71530, 940200)) == Ok(71503)
  {
    ReadPart2Show(SampleRaces);
    assert Times(SampleRaces) == [7, 15, 30];
    assert Distances(SampleRaces) == [9, 40, 200];
    SampleKerned();
    SampleLongRace(Race(71530, 940200));
  }

  /** The third sample race read as a sheet of its own: the charges 10 and
      20 tie the record 200 exactly, so the first assertion of `part2`
      fails although 9 charges win. */
  lemma Part2Tie(race: Race)
    requires race == Race(30, 200)
    ensures Tied(race) && Wins(race) == 9
    ensures Part2AsWritten(race) == Err(Panic("assertion failed: (t - c1) * c1 > distance"))
    ensures Part2(race) == 9
  {
    var t, d := race.time, race.distance;
    assert Interval(t, d, 10, 20);
    ReachIntervalAll(t, d, 10, 20);
    assert FirstReaching(t, d, 0) == Some(10);
    assert Distance(t, 10) == d;
    CountBetweenBounds(race, 11, 19);
    Part2Counts(race);
  }
}
