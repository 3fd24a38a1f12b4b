/** Day 9, "Mirage Maintenance": every line is a history of readings.  The
    next (part 1) and previous (part 2) reading are extrapolated from the
    table of repeated differences, which ends at a constant row. */
module Day09 {
  import opened Wrappers
  import Text
  import Seqs

  // ---------------------------------------------------------------------
  // Reading and writing the input

  /** `num.parse::<i64>().unwrap()`. */
  function ReadInt(word: string): (r: Result<int>)
    ensures r.Err? ==> r.error == Panic(UnwrapErr)
  {
    match Text.ParseInt(word)
    case Some(n) => Ok(n)
    case None => Err(Panic(UnwrapErr))
  }

  function ReadHistory(line: string): Result<seq<int>> {
    MapAll(ReadInt, Text.SplitWhitespace(line))
  }

  /** `read_part1`: one history per line, readings separated by ASCII
      whitespace. */
  function Read(input: string): Result<seq<seq<int>>> {
    MapAll(ReadHistory, Text.Lines(input))
  }

  function ShowInts(history: seq<int>): (ws: seq<string>)
    ensures |ws| == |history|
  {
    seq(|history|, k requires 0 <= k < |history| => Text.ShowInt(history[k]))
  }

  /** A history written as a line, readings separated by one space. */
  function ShowHistory(history: seq<int>): string {
    Text.Unwords(ShowInts(history))
  }

  function ShowHistories(histories: seq<seq<int>>): (lines: seq<string>)
    ensures |lines| == |histories|
  {
    seq(|histories|, k requires 0 <= k < |histories| => ShowHistory(histories[k]))
  }

  /** A reading written in decimal reads back as itself. */
  lemma ReadShowInt(n: int)
    ensures ReadInt(Text.ShowInt(n)) == Ok(n)
  {
    Text.ParseShowInt(n);
  }

  /** A history written as a line reads back as itself. */
  lemma ReadShowHistory(history: seq<int>)
    ensures Text.IsLine(ShowHistory(history))
    ensures ReadHistory(ShowHistory(history)) == Ok(history)
  {
    var ws := ShowInts(history);
    Text.NotInUnwords(ws, '\n');
    Text.NotInUnwords(ws, '\r');
    var line := ShowHistory(history);
    if |line| > 0 {
      assert line[|line| - 1] in line;
    }
    Text.SplitWhitespaceUnwords(ws);
    forall k | 0 <= k < |ws|
      ensures ReadInt(ws[k]) == Ok(history[k])
    {
      ReadShowInt(history[k]);
    }
    MapAllOk(ReadInt, ws, history);
  }

  /** Every list of histories, one per line, reads back as itself. */
  lemma ReadShowHistories(histories: seq<seq<int>>)
    ensures Read(Text.Unlines(ShowHistories(histories))) == Ok(histories)
  {
    var lines := ShowHistories(histories);
    forall k | 0 <= k < |lines|
      ensures Text.IsLine(lines[k]) && ReadHistory(lines[k]) == Ok(histories[k])
    {
      ReadShowHistory(histories[k]);
    }
    Text.LinesUnlines(lines);
    MapAllOk(ReadHistory, lines, histories);
  }

  // ---------------------------------------------------------------------
  // The difference table

  /** `Itertools::all_equal`: true on an empty sequence too. */
  predicate AllEqual(s: seq<int>) {
    forall i :: 0 <= i < |s| ==> s[i] == s[0]
  }

  /** `tuple_windows().map(|(x1, x2)| x2 - x1)`: one entry fewer than the
      data, each the step between two neighbouring readings. */
  function Differences(data: seq<int>): (d: seq<int>)
    ensures |d| == if |data| == 0 then 0 else |data| - 1
  {
    if |data| < 2 then [] else [data[1] - data[0]] + Differences(data[1..])
  }

  /** Entry `i` of the differences is the step from reading `i` to reading
      `i + 1`. */
  lemma {:induction false} DifferencesSpec(data: seq<int>)
    ensures forall i :: 0 <= i < |Differences(data)| ==> Differences(data)[i] == data[i + 1] - data[i]
  {
    if |data| >= 2 {
      DifferencesSpec(data[1..]);
    }
  }

  /** `finite_diff_extrapolation`: the pair (previous, next) reading.  A
      constant row repeats its value on both sides; any other row extends
      its difference row and adds the new steps to its own ends.  An empty
      row is constant, and taking its first entry panics. */
  function Extrapolate(data: seq<int>): (r: Result<(int, int)>)
    ensures r.Ok? <==> |data| > 0
    ensures r.Err? ==> r.error == Panic(UnwrapNone)
    decreases |data|
  {
    if AllEqual(data) then
      if |data| == 0 then Err(Panic(UnwrapNone)) else Ok((data[0], data[0]))
    else
      var diff :- Extrapolate(Differences(data));
      Ok((data[0] - diff.0, data[|data| - 1] + diff.1))
  }

  /** One level of the recursion, spelled out for a row that is not
      constant. */
  lemma ExtrapolateStep(data: seq<int>, d: seq<int>, front: int, back: int)
    requires !AllEqual(data)
    requires d == Differences(data) && Extrapolate(d) == Ok((front, back))
    ensures |data| >= 2
    ensures Extrapolate(data) == Ok((data[0] - front, data[|data| - 1] + back))
  {
  }

  /** A constant row of any positive length extrapolates to its value on
      both sides. */
  lemma ExtrapolateConstant(data: seq<int>, c: int)
    requires |data| > 0 && forall i :: 0 <= i < |data| ==> data[i] == c
    ensures Extrapolate(data) == Ok((c, c))
  {
  }

  /** The readings `a, a + d, ..., a + (n - 1) * d`. */
  function Progression(a: int, d: int, n: nat): (s: seq<int>)
    ensures |s| == n
  {
    seq(n, i => a + i * d)
  }

  /** An arithmetic progression extends by one step on either side.  A
      single reading counts as constant, so it needs the step to be 0. */
  lemma ExtrapolateProgression(a: int, d: int, n: nat)
    requires n >= 2 || (n == 1 && d == 0)
    ensures Extrapolate(Progression(a, d, n)) == Ok((a - d, a + n * d))
  {
    var s := Progression(a, d, n);
    if d == 0 {
      ExtrapolateConstant(s, a);
    } else {
      assert s[1] != s[0];
      var diff := Differences(s);
      DifferencesSpec(s);
      forall i | 0 <= i < |diff|
        ensures diff[i] == d
      {
        assert s[i + 1] - s[i] == (i + 1) * d - i * d;
      }
      ExtrapolateConstant(diff, d);
      ExtrapolateStep(s, diff, d, d);
      assert s[n - 1] + d == a + n * d;
    }
  }

  // ---------------------------------------------------------------------
  // Symmetries of the extrapolation

  function Shift(s: seq<int>, c: int): (r: seq<int>)
    ensures |r| == |s|
  {
    seq(|s|, i requires 0 <= i < |s| => s[i] + c)
  }

  function Negate(s: seq<int>): (r: seq<int>)
    ensures |r| == |s|
  {
    seq(|s|, i requires 0 <= i < |s| => -s[i])
  }

  /** Whether a row is constant survives a shift, a negation and a
      reversal of its readings. */
  lemma AllEqualShift(data: seq<int>, c: int)
    ensures AllEqual(Shift(data, c)) <==> AllEqual(data)
  {
    var shifted := Shift(data, c);
    if !AllEqual(data) {
      var i :| 0 <= i < |data| && data[i] != data[0];
      assert shifted[i] != shifted[0];
    }
  }

  lemma AllEqualNegate(data: seq<int>)
    ensures AllEqual(Negate(data)) <==> AllEqual(data)
  {
    var negated := Negate(data);
    if !AllEqual(data) {
      var i :| 0 <= i < |data| && data[i] != data[0];
      assert negated[i] != negated[0];
    }
  }

  lemma AllEqualReverse(data: seq<int>)
    ensures AllEqual(Seqs.Reverse(data)) <==> AllEqual(data)
  {
    var n := |data|;
    var reversed := Seqs.Reverse(data);
    if !AllEqual(data) {
      var i :| 0 <= i < n && data[i] != data[0];
      assert reversed[n - 1 - i] != reversed[n - 1];
      if reversed[n - 1] == reversed[0] {
        assert reversed[n - 1 - i] != reversed[0];
      }
    } else if n > 0 {
      forall i | 0 <= i < n
        ensures reversed[i] == reversed[0]
      {
        assert reversed[i] == data[n - 1 - i];
      }
    }
  }

  lemma DifferencesShift(data: seq<int>, c: int)
    ensures Differences(Shift(data, c)) == Differences(data)
  {
    var shifted := Shift(data, c);
    DifferencesSpec(data);
    DifferencesSpec(shifted);
    var lhs := Differences(shifted);
    forall i | 0 <= i < |lhs|
      ensures lhs[i] == Differences(data)[i]
    {
      assert shifted[i + 1] - shifted[i] == data[i + 1] - data[i];
    }
  }

  lemma DifferencesNegate(data: seq<int>)
    ensures Differences(Negate(data)) == Negate(Differences(data))
  {
    var negated := Negate(data);
    DifferencesSpec(data);
    DifferencesSpec(negated);
    var lhs := Differences(negated);
    var rhs := Negate(Differences(data));
    forall i | 0 <= i < |lhs|
      ensures lhs[i] == rhs[i]
    {
      assert negated[i + 1] - negated[i] == -(data[i + 1] - data[i]);
    }
  }

  /** The differences of a reversed row are the reversed differences,
      negated. */
  lemma DifferencesReverse(data: seq<int>)
    ensures Differences(Seqs.Reverse(data)) == Negate(Seqs.Reverse(Differences(data)))
  {
    var n := |data|;
    var d := Differences(data);
    var lhs := Differences(Seqs.Reverse(data));
    var rhs := Negate(Seqs.Reverse(d));
    forall i | 0 <= i < |lhs|
      ensures lhs[i] == rhs[i]
    {
      DifferenceOfReverseAt(data, i);
      assert Seqs.Reverse(d)[i] == d[n - 2 - i];
    }
  }

  /** One entry of the differences. */
  lemma DifferenceAt(data: seq<int>, i: nat)
    requires i + 1 < |data|
    ensures Differences(data)[i] == data[i + 1] - data[i]
  {
    DifferencesSpec(data);
  }

  lemma DifferenceOfReverseAt(data: seq<int>, i: nat)
    requires i + 1 < |data|
    ensures Differences(Seqs.Reverse(data))[i] == -Differences(data)[|data| - 2 - i]
  {
    var n := |data|;
    var r := Seqs.Reverse(data);
    DifferenceAt(data, n - 2 - i);
    DifferenceAt(r, i);
    assert r[i + 1] == data[n - 2 - i];
    assert r[i] == data[n - 1 - i];
  }

  /** Adding a constant to every reading adds it to both extrapolated
      readings: the differences do not change. */
  lemma ExtrapolateShift(data: seq<int>, c: int, front: int, back: int)
    requires Extrapolate(data) == Ok((front, back))
    ensures Extrapolate(Shift(data, c)) == Ok((front + c, back + c))
  {
    var shifted := Shift(data, c);
    AllEqualShift(data, c);
    if AllEqual(data) {
      ExtrapolateConstant(shifted, data[0] + c);
    } else {
      var d := Differences(data);
      var p := Extrapolate(d).value;
      ExtrapolateStep(data, d, p.0, p.1);
      DifferencesShift(data, c);
      ExtrapolateStep(shifted, d, p.0, p.1);
    }
  }

  /** Negating every reading negates both extrapolated readings. */
  lemma {:induction false} ExtrapolateNegate(data: seq<int>, front: int, back: int)
    requires Extrapolate(data) == Ok((front, back))
    ensures Extrapolate(Negate(data)) == Ok((-front, -back))
    decreases |data|
  {
    var negated := Negate(data);
    AllEqualNegate(data);
    if AllEqual(data) {
      ExtrapolateConstant(negated, -data[0]);
    } else {
      var d := Differences(data);
      var p := Extrapolate(d).value;
      ExtrapolateStep(data, d, p.0, p.1);
      ExtrapolateNegate(d, p.0, p.1);
      DifferencesNegate(data);
      ExtrapolateStep(negated, Negate(d), -p.0, -p.1);
    }
  }

  /** Reading a row backwards swaps the previous and the next reading. */
  lemma {:induction false} ExtrapolateReverse(data: seq<int>, front: int, back: int)
    requires Extrapolate(data) == Ok((front, back))
    ensures Extrapolate(Seqs.Reverse(data)) == Ok((back, front))
    decreases |data|
  {
    var reversed := Seqs.Reverse(data);
    AllEqualReverse(data);
    if AllEqual(data) {
      ExtrapolateConstant(reversed, data[0]);
    } else {
      var d := Differences(data);
      var p := Extrapolate(d).value;
      ExtrapolateStep(data, d, p.0, p.1);
      ExtrapolateReverse(d, p.0, p.1);
      ExtrapolateNegate(Seqs.Reverse(d), p.1, p.0);
      DifferencesReverse(data);
      ExtrapolateStep(reversed, Negate(Seqs.Reverse(d)), -p.1, -p.0);
    }
  }

  // ---------------------------------------------------------------------
  // The two parts

  function Next(history: seq<int>): Result<int> {
    var p :- Extrapolate(history);
    Ok(p.1)
  }

  function Previous(history: seq<int>): Result<int> {
    var p :- Extrapolate(history);
    Ok(p.0)
  }

  /** The total of the chosen extrapolations and the list of them, or the
      panic of the first empty history. */
  function Answer(histories: seq<seq<int>>, pick: seq<int> -> Result<int>): Result<(int, seq<int>)> {
    var values :- MapAll(pick, histories);
    Ok((Seqs.Sum(values), values))
  }

  /** `part1`: the next reading of every history and their sum. */
  function Part1(histories: seq<seq<int>>): (r: Result<(int, seq<int>)>)
    ensures r.Ok? <==> forall k :: 0 <= k < |histories| ==> |histories[k]| > 0
    ensures r.Err? ==> r.error == Panic(UnwrapNone)
    ensures r.Ok? ==> |r.value.1| == |histories|
    ensures r.Ok? ==> forall k :: 0 <= k < |histories| ==> r.value.1[k] == Extrapolate(histories[k]).value.1
    ensures r.Ok? ==> r.value.0 == Seqs.Sum(r.value.1)
  {
    Answer(histories, Next)
  }

  /** `part2`: the previous reading of every history and their sum. */
  function Part2(histories: seq<seq<int>>): (r: Result<(int, seq<int>)>)
    ensures r.Ok? <==> forall k :: 0 <= k < |histories| ==> |histories[k]| > 0
    ensures r.Err? ==> r.error == Panic(UnwrapNone)
    ensures r.Ok? ==> |r.value.1| == |histories|
    ensures r.Ok? ==> forall k :: 0 <= k < |histories| ==> r.value.1[k] == Extrapolate(histories[k]).value.0
    ensures r.Ok? ==> r.value.0 == Seqs.Sum(r.value.1)
  {
    Answer(histories, Previous)
  }

  function ReverseAll(histories: seq<seq<int>>): (r: seq<seq<int>>)
    ensures |r| == |histories|
  {
    seq(|histories|, k requires 0 <= k < |histories| => Seqs.Reverse(histories[k]))
  }

  /** Part 2 is part 1 run on every history read backwards. */
  lemma Part2IsPart1Reversed(histories: seq<seq<int>>)
    ensures Part2(histories) == Part1(ReverseAll(histories))
  {
    var reversed := ReverseAll(histories);
    var r1 := Part1(reversed);
    var r2 := Part2(histories);
    forall k | 0 <= k < |histories| && |histories[k]| > 0
      ensures Extrapolate(reversed[k]).value.1 == Extrapolate(histories[k]).value.0
    {
      var p := Extrapolate(histories[k]).value;
      ExtrapolateReverse(histories[k], p.0, p.1);
    }
    if r2.Ok? {
      assert r1.Ok?;
      var l1, l2 := r1.value.1, r2.value.1;
      assert |l1| == |l2|;
      forall k | 0 <= k < |l1|
        ensures l1[k] == l2[k]
      {
      }
      assert l1 == l2;
    } else {
      var k :| 0 <= k < |histories| && |histories[k]| == 0;
      assert |reversed[k]| == 0;
    }
  }

  /** Appending histories appends their extrapolations and adds up the
      totals. */
  lemma Part1Append(a: seq<seq<int>>, b: seq<seq<int>>)
    requires Part1(a).Ok? && Part1(b).Ok?
    ensures Part1(a + b).Ok?
    ensures Part1(a + b).value.1 == Part1(a).value.1 + Part1(b).value.1
    ensures Part1(a + b).value.0 == Part1(a).value.0 + Part1(b).value.0
  {
    var ab := a + b;
    assert forall k :: 0 <= k < |ab| ==> |ab[k]| > 0 by {
      forall k | 0 <= k < |ab|
        ensures |ab[k]| > 0
      {
        if k >= |a| {
          assert ab[k] == b[k - |a|];
        }
      }
    }
    var xs := Part1(a).value.1;
    var ys := Part1(b).value.1;
    var zs := Part1(ab).value.1;
    assert zs == xs + ys by {
      forall k | 0 <= k < |zs|
        ensures zs[k] == (xs + ys)[k]
      {
        if k >= |a| {
          assert ab[k] == b[k - |a|];
        }
      }
    }
    Seqs.SumAppend(xs, ys);
  }

  // ---------------------------------------------------------------------
  // The example from the puzzle text

  /** The differences of a row, given entry by entry. */
  lemma DifferencesAre(data: seq<int>, d: seq<int>)
    requires |data| == |d| + 1
    requires forall i :: 0 <= i < |d| ==> d[i] == data[i + 1] - data[i]
    ensures Differences(data) == d
  {
    var e := Differences(data);
    assert |e| == |d|;
    forall i | 0 <= i < |d|
      ensures e[i] == d[i]
    {
      DifferenceAt(data, i);
      assert d[i] == data[i + 1] - data[i];
    }
  }

  lemma SampleDifferences2()
    ensures Differences([1, 3, 6, 10, 15, 21]) == [2, 3, 4, 5, 6]
  {
    DifferencesAre([1, 3, 6, 10, 15, 21], [2, 3, 4, 5, 6]);
  }

  lemma SampleDifferences3()
    ensures Differences([10, 13, 16, 21, 30, 45]) == [3, 3, 5, 9, 15]
    ensures Differences([3, 3, 5, 9, 15]) == [0, 2, 4, 6]
  {
    DifferencesAre([10, 13, 16, 21, 30, 45], [3, 3, 5, 9, 15]);
    DifferencesAre([3, 3, 5, 9, 15], [0, 2, 4, 6]);
  }

  lemma SampleHistory1(h: seq<int>)
    requires h == [0, 3, 6, 9, 12, 15]
    ensures Extrapolate(h) == Ok((-3, 18))
  {
    assert h == Progression(0, 3, 6);
    ExtrapolateProgression(0, 3, 6);
  }

  lemma SampleHistory2(h: seq<int>)
    requires h == [1, 3, 6, 10, 15, 21]
    ensures Extrapolate(h) == Ok((0, 28))
  {
    var d := Differences(h);
    SampleDifferences2();
    assert d == Progression(2, 1, 5);
    ExtrapolateProgression(2, 1, 5);
    assert h[0] != h[1];
    ExtrapolateStep(h, d, 1, 7);
  }

  lemma SampleHistory3(h: seq<int>)
    requires h == [10, 13, 16, 21, 30, 45]
    ensures Extrapolate(h) == Ok((5, 68))
  {
    var d := Differences(h);
    SampleDifferences3();
    assert d == [3, 3, 5, 9, 15];
    SampleRow3(d);
    assert h[0] != h[2];
    ExtrapolateStep(h, d, 5, 23);
  }

  lemma SampleRow3(d: seq<int>)
    requires d == [3, 3, 5, 9, 15]
    ensures Extrapolate(d) == Ok((5, 23))
  {
    var dd := Differences(d);
    SampleDifferences3();
    assert dd == Progression(0, 2, 4);
    ExtrapolateProgression(0, 2, 4);
    assert d[0] != d[2];
    ExtrapolateStep(d, dd, -2, 8);
  }

  lemma SampleExtrapolations(hs: seq<seq<int>>)
    requires hs == [[0, 3, 6, 9, 12, 15], [1, 3, 6, 10, 15, 21], [10, 13, 16, 21, 30, 45]]
    ensures Extrapolate(hs[0]) == Ok((-3, 18))
    ensures Extrapolate(hs[1]) == Ok((0, 28))
    ensures Extrapolate(hs[2]) == Ok((5, 68))
  {
    SampleHistory1(hs[0]);
    SampleHistory2(hs[1]);
    SampleHistory3(hs[2]);
  }

  lemma AnswerOfThree(hs: seq<seq<int>>, pick: seq<int> -> Result<int>, values: seq<int>)
    requires |hs| == 3 && |values| == 3
    requires pick(hs[0]) == Ok(values[0]) && pick(hs[1]) == Ok(values[1]) && pick(hs[2]) == Ok(values[2])
    ensures Answer(hs, pick) == Ok((Seqs.Sum(values), values))
  {
    forall k | 0 <= k < 3
      ensures pick(hs[k]) == Ok(values[k])
    {
      if k == 0 {} else if k == 1 {} else {}
    }
    MapAllOk(pick, hs, values);
  }

  /** Part 1 on the example gives (114, [18, 28, 68]). */
  lemma SamplePart1(hs: seq<seq<int>>)
    requires hs == [[0, 3, 6, 9, 12, 15], [1, 3, 6, 10, 15, 21], [10, 13, 16, 21, 30, 45]]
    ensures Part1(hs) == Ok((114, [18, 28, 68]))
  {
    SampleExtrapolations(hs);
    AnswerOfThree(hs, Next, [18, 28, 68]);
    assert Seqs.Sum([18, 28, 68]) == 114;
  }

  /** Part 2 on the example gives (2, [-3, 0, 5]). */
  lemma SamplePart2(hs: seq<seq<int>>)
    requires hs == [[0, 3, 6, 9, 12, 15], [1, 3, 6, 10, 15, 21], [10, 13, 16, 21, 30, 45]]
    ensures Part2(hs) == Ok((2, [-3, 0, 5]))
  {
    SampleExtrapolations(hs);
    AnswerOfThree(hs, Previous, [-3, 0, 5]);
    assert Seqs.Sum([-3, 0, 5]) == 2;
  }
}
