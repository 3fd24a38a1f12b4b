/** Day 3, "Gear Ratios": an engine schematic is a grid of digits, periods
    and symbols.  Part 1 adds up every number that touches a symbol, also
    diagonally; part 2 looks at every `*` and, when exactly two distinct
    numbers touch it, adds their product. */
module Day03 {
  import opened Wrappers
  import Text
  import Seqs
  import Sorting

  /** A grid position `(x, y)`: column, then line. */
  type Pos = (int, int)

  /** `Data`: every number read, as `(id, is_part)`; for every cell that
      belongs to a number, the index of that number in `ids`; and the symbol
      at every symbol position. */
  datatype Data = Data(ids: seq<(nat, bool)>, idMap: map<Pos, nat>, parts: map<Pos, char>)

  /** Every cell refers to an entry that exists. */
  predicate WellFormed(d: Data) {
    forall q :: q in d.idMap ==> d.idMap[q] < |d.ids|
  }

  predicate IsSymbol(c: char) {
    c != '.' && !Text.IsAsciiDigit(c)
  }

  // ---------------------------------------------------------------------
  // Scanning (`Data::from_str`)

  /** The state of the scan: the data so far and the digits of the number
      being read (`chars`). */
  datatype Scanner = Scanner(data: Data, digits: string)

  /** The loop `for offset in 1..=k` of `store_id(x, y, ..)`: the `k`
      columns just before column `x` refer to entry `idx`. */
  function Cells(x: int, y: int, k: nat, idx: nat): map<Pos, nat> {
    if k == 0 then map[] else Cells(x, y, k - 1, idx)[(x - k, y) := idx]
  }

  lemma {:induction false} CellsSpec(x: int, y: int, k: nat, idx: nat, q: Pos)
    ensures q in Cells(x, y, k, idx) <==> q.1 == y && x - k <= q.0 <= x - 1
    ensures q in Cells(x, y, k, idx) ==> Cells(x, y, k, idx)[q] == idx
  {
    if k > 0 {
      CellsSpec(x, y, k - 1, idx, q);
    }
  }

  /** `store_id`: a non-empty run of digits becomes a new entry of `ids`,
      and the `k` cells before column `x` refer to it. */
  function StoreId(d: Data, x: int, y: int, digits: string): Data
    requires Text.AllDigits(digits)
  {
    if |digits| == 0 then d
    else Data(d.ids + [(Text.DigitsValue(digits), false)], d.idMap + Cells(x, y, |digits|, |d.ids|), d.parts)
  }

  /** `parts.insert((x, y), c)` for a symbol; nothing for a period. */
  function Record(d: Data, c: char, x: int, y: int): Data {
    if c == '.' then d else d.(parts := d.parts[(x, y) := c])
  }

  /** One character of the scan: a digit extends the current number (and
      ends it when it is the last character of the line); a period, or any
      other character after it is recorded as a symbol, ends the number.  A
      number is stored with the column of the character that ends it, so
      one that ends the line is stored with the column of its own last
      digit. */
  function Step(s: Scanner, l: string, x: nat, y: int): (r: Scanner)
    requires x < |l| && Text.AllDigits(s.digits)
    ensures Text.AllDigits(r.digits)
    ensures x + 1 == |l| ==> r.digits == ""
  {
    var c := l[x];
    if Text.IsAsciiDigit(c) then
      if x + 1 < |l| then Scanner(s.data, s.digits + [c])
      else Scanner(StoreId(s.data, x, y, s.digits + [c]), "")
    else Scanner(StoreId(Record(s.data, c, x, y), x, y, s.digits), "")
  }

  /** The scan of line `y` from column `x` on. */
  function ScanLine(s: Scanner, l: string, y: int, x: nat): (r: Scanner)
    requires x <= |l| && Text.AllDigits(s.digits)
    ensures x < |l| || s.digits == "" ==> r.digits == ""
    decreases |l| - x
  {
    if x == |l| then s else ScanLine(Step(s, l, x, y), l, y, x + 1)
  }

  /** The scan of the lines `ls`, the first of them being line `y`. */
  function ScanLines(s: Scanner, ls: seq<string>, y: int): (r: Scanner)
    requires s.digits == ""
    ensures r.digits == ""
    decreases |ls|
  {
    if |ls| == 0 then s else ScanLines(ScanLine(s, ls[0], y, 0), ls[1..], y + 1)
  }

  const Empty := Data([], map[], map[])

  /** `Data::from_str`. */
  function Read(input: string): Data {
    ScanLines(Scanner(Empty, ""), Text.Lines(input), 0).data
  }

  // ---------------------------------------------------------------------
  // The numbers of a schematic, read run by run

  /** A number of the schematic as `store_id` receives it: its value, its
      line, the column `at` it is stored with and its number of digits.  The
      cells that refer to it are the `len` columns just before `at`. */
  datatype Number = Number(value: nat, y: int, at: int, len: nat)

  predicate InCells(q: Pos, n: Number) {
    q.1 == n.y && n.at - n.len <= q.0 < n.at
  }

  /** The end of the run of digits that starts at column `x`. */
  function RunEnd(l: string, x: nat): (e: nat)
    requires x <= |l|
    ensures x <= e <= |l|
    ensures e < |l| ==> !Text.IsAsciiDigit(l[e])
    decreases |l| - x
  {
    if x < |l| && Text.IsAsciiDigit(l[x]) then RunEnd(l, x + 1) else x
  }

  lemma {:induction false} RunEndDigits(l: string, x: nat)
    requires x <= |l|
    ensures forall k :: x <= k < RunEnd(l, x) ==> Text.IsAsciiDigit(l[k])
    ensures Text.AllDigits(l[x..RunEnd(l, x)])
    decreases |l| - x
  {
    if x < |l| && Text.IsAsciiDigit(l[x]) {
      RunEndDigits(l, x + 1);
      assert l[x..RunEnd(l, x)] == [l[x]] + l[x + 1..RunEnd(l, x + 1)];
    }
  }

  /** The numbers of line `y` from column `x` on, where `x` is not inside a
      number.  A number that some other character ends is stored with the
      column of that character and so owns the columns it occupies; one
      that ends the line is stored with the column of its own last digit,
      which shifts its cells one column to the left. */
  function LineNumbers(l: string, y: int, x: nat): seq<Number>
    requires x <= |l|
    decreases |l| - x
  {
    if x == |l| then []
    else if !Text.IsAsciiDigit(l[x]) then LineNumbers(l, y, x + 1)
    else
      var e := RunEnd(l, x);
      RunEndDigits(l, x);
      var n := Number(Text.DigitsValue(l[x..e]), y, if e < |l| then e else e - 1, e - x);
      if e < |l| then [n] + LineNumbers(l, y, e + 1) else [n]
  }

  /** The numbers of the lines `ls`, the first of them being line `y`, in
      reading order. */
  function AllNumbers(ls: seq<string>, y: int): seq<Number> {
    if |ls| == 0 then [] else LineNumbers(ls[0], y, 0) + AllNumbers(ls[1..], y + 1)
  }

  /** The entries of `ids` for the numbers `nums`: none marked yet. */
  function IdsOf(nums: seq<Number>): (r: seq<(nat, bool)>)
    ensures |r| == |nums|
  {
    if |nums| == 0 then [] else IdsOf(nums[..|nums| - 1]) + [(nums[|nums| - 1].value, false)]
  }

  /** The cell map that storing the numbers `nums` in order builds. */
  function CellMap(nums: seq<Number>): map<Pos, nat> {
    if |nums| == 0 then map[]
    else
      var n := nums[|nums| - 1];
      CellMap(nums[..|nums| - 1]) + Cells(n.at, n.y, n.len, |nums| - 1)
  }

  /** `d` is what storing the numbers `nums`, in order, builds. */
  predicate Holds(d: Data, nums: seq<Number>) {
    d.ids == IdsOf(nums) && d.idMap == CellMap(nums)
  }

  /** Storing one more number extends the numbers held by it. */
  lemma StoreIdHolds(d: Data, nums: seq<Number>, x: int, y: int, digits: string, n: Number)
    requires Text.AllDigits(digits) && |digits| > 0 && n == Number(Text.DigitsValue(digits), y, x, |digits|)
    requires Holds(d, nums)
    ensures Holds(StoreId(d, x, y, digits), nums + [n])
  {
    assert (nums + [n])[..|nums|] == nums;
  }

  lemma {:induction false} Accumulate(d: Data, l: string, y: int, x: nat, j: nat)
    requires x <= j < |l|
    requires forall k :: x <= k < j ==> Text.IsAsciiDigit(l[k])
    ensures Text.AllDigits(l[x..j])
    ensures ScanLine(Scanner(d, ""), l, y, x) == ScanLine(Scanner(d, l[x..j]), l, y, j)
    decreases j - x
  {
    if x < j {
      Accumulate(d, l, y, x, j - 1);
      assert l[x..j - 1] + [l[j - 1]] == l[x..j];
    } else {
      assert l[x..j] == "";
    }
  }

  /** The number starting at column `x`, as `LineNumbers` reads it. */
  function NumberAt(l: string, y: int, x: nat): Number
    requires x < |l| && Text.IsAsciiDigit(l[x])
  {
    LineNumbers(l, y, x)[0]
  }

  /** The scan of a number that a period or a symbol ends: its digits pile
      up until that character, which stores it. */
  lemma ScanNumberInside(d: Data, l: string, y: int, x: nat, e: nat)
    requires x < |l| && Text.IsAsciiDigit(l[x]) && e == RunEnd(l, x) && e < |l|
    ensures Text.AllDigits(l[x..e])
    ensures ScanLine(Scanner(d, ""), l, y, x) == ScanLine(Scanner(StoreId(Record(d, l[e], e, y), e, y, l[x..e]), ""), l, y, e + 1)
  {
    RunEndDigits(l, x);
    Accumulate(d, l, y, x, e);
  }

  /** The scan of a number that ends the line: its last digit stores it. */
  lemma ScanNumberAtEnd(d: Data, l: string, y: int, x: nat)
    requires x < |l| && Text.IsAsciiDigit(l[x]) && RunEnd(l, x) == |l|
    ensures Text.AllDigits(l[x..|l|])
    ensures ScanLine(Scanner(d, ""), l, y, x) == Scanner(StoreId(d, |l| - 1, y, l[x..|l|]), "")
  {
    RunEndDigits(l, x);
    Accumulate(d, l, y, x, |l| - 1);
    assert l[x..|l| - 1] + [l[|l| - 1]] == l[x..|l|];
  }

  /** A number that a period or a symbol ends is added to those held. */
  lemma RunInside(s: Scanner, nums: seq<Number>, l: string, y: int, x: nat, e: nat) returns (s': Scanner)
    requires x < |l| && Text.IsAsciiDigit(l[x]) && e == RunEnd(l, x) && e < |l|
    requires s.digits == "" && Holds(s.data, nums)
    ensures s'.digits == ""
    ensures ScanLine(s, l, y, x) == ScanLine(s', l, y, e + 1)
    ensures LineNumbers(l, y, x) == [NumberAt(l, y, x)] + LineNumbers(l, y, e + 1)
    ensures Holds(s'.data, nums + [NumberAt(l, y, x)])
  {
    ScanNumberInside(s.data, l, y, x, e);
    var d := Record(s.data, l[e], e, y);
    s' := Scanner(StoreId(d, e, y, l[x..e]), "");
    StoreIdHolds(d, nums, e, y, l[x..e], NumberAt(l, y, x));
  }

  /** A number that ends the line is added to those held, one column to
      the left. */
  lemma RunAtEnd(s: Scanner, nums: seq<Number>, l: string, y: int, x: nat) returns (s': Scanner)
    requires x < |l| && Text.IsAsciiDigit(l[x]) && RunEnd(l, x) == |l|
    requires s.digits == "" && Holds(s.data, nums)
    ensures ScanLine(s, l, y, x) == s'
    ensures LineNumbers(l, y, x) == [NumberAt(l, y, x)]
    ensures Holds(s'.data, nums + [NumberAt(l, y, x)])
  {
    ScanNumberAtEnd(s.data, l, y, x);
    s' := Scanner(StoreId(s.data, |l| - 1, y, l[x..|l|]), "");
    StoreIdHolds(s.data, nums, |l| - 1, y, l[x..|l|], NumberAt(l, y, x));
  }

  /** Scanning a line from a column that is not inside a number adds that
      line's numbers, in order, to those held. */
  lemma {:induction false} ScanLineHolds(s: Scanner, nums: seq<Number>, l: string, y: int, x: nat, all: seq<Number>)
    requires x <= |l| && s.digits == "" && Holds(s.data, nums)
    requires all == nums + LineNumbers(l, y, x)
    ensures Holds(ScanLine(s, l, y, x).data, all)
    decreases |l| - x, 1
  {
    if x == |l| {
      assert all == nums;
    } else if !Text.IsAsciiDigit(l[x]) {
      ScanPastSymbol(s, nums, l, y, x, all);
    } else if RunEnd(l, x) < |l| {
      ScanPastNumber(s, nums, l, y, x, all);
    } else {
      var s' := RunAtEnd(s, nums, l, y, x);
    }
  }

  lemma {:induction false} ScanPastSymbol(s: Scanner, nums: seq<Number>, l: string, y: int, x: nat, all: seq<Number>)
    requires x < |l| && !Text.IsAsciiDigit(l[x]) && s.digits == "" && Holds(s.data, nums)
    requires all == nums + LineNumbers(l, y, x)
    ensures Holds(ScanLine(s, l, y, x).data, all)
    decreases |l| - x, 0
  {
    var s' := Step(s, l, x, y);
    assert Holds(s'.data, nums);
    ScanLineHolds(s', nums, l, y, x + 1, all);
  }

  lemma {:induction false} ScanPastNumber(s: Scanner, nums: seq<Number>, l: string, y: int, x: nat, all: seq<Number>)
    requires x < |l| && Text.IsAsciiDigit(l[x]) && RunEnd(l, x) < |l|
    requires s.digits == "" && Holds(s.data, nums)
    requires all == nums + LineNumbers(l, y, x)
    ensures Holds(ScanLine(s, l, y, x).data, all)
    decreases |l| - x, 0
  {
    var e := RunEnd(l, x);
    var n := NumberAt(l, y, x);
    var s' := RunInside(s, nums, l, y, x, e);
    AppendAssociative(nums, [n], LineNumbers(l, y, e + 1));
    ScanLineHolds(s', nums + [n], l, y, e + 1, all);
  }

  lemma AppendAssociative(a: seq<Number>, b: seq<Number>, c: seq<Number>)
    ensures a + (b + c) == (a + b) + c
  {
  }

  /** Scanning whole lines adds their numbers, in reading order. */
  lemma {:induction false} ScanLinesHolds(s: Scanner, nums: seq<Number>, ls: seq<string>, y: int)
    requires s.digits == "" && Holds(s.data, nums)
    ensures Holds(ScanLines(s, ls, y).data, nums + AllNumbers(ls, y))
    decreases |ls|
  {
    if |ls| == 0 {
      assert nums + AllNumbers(ls, y) == nums;
    } else {
      var lineNums := LineNumbers(ls[0], y, 0);
      ScanLineHolds(s, nums, ls[0], y, 0, nums + lineNums);
      ScanLinesHolds(ScanLine(s, ls[0], y, 0), nums + lineNums, ls[1..], y + 1);
      assert nums + AllNumbers(ls, y) == nums + lineNums + AllNumbers(ls[1..], y + 1);
    }
  }

  /** `Data::from_str` stores the numbers of the schematic in reading
      order. */
  lemma ReadHolds(input: string)
    ensures Holds(Read(input), AllNumbers(Text.Lines(input), 0))
  {
    ScanLinesHolds(Scanner(Empty, ""), [], Text.Lines(input), 0);
    assert [] + AllNumbers(Text.Lines(input), 0) == AllNumbers(Text.Lines(input), 0);
  }
  // ---------------------------------------------------------------------
  // What the stored numbers and cells mean

  lemma {:induction false} IdsOfSpec(nums: seq<Number>)
    ensures forall i :: 0 <= i < |nums| ==> IdsOf(nums)[i] == (nums[i].value, false)
    decreases |nums|
  {
    if |nums| > 0 {
      IdsOfSpec(nums[..|nums| - 1]);
    }
  }

  /** Every cell of `a` comes before every cell of `b` in reading order. */
  predicate Precedes(a: Number, b: Number) {
    a.y < b.y || (a.y == b.y && a.at <= b.at - b.len)
  }

  predicate Ordered(nums: seq<Number>) {
    forall i, j :: 0 <= i < j < |nums| ==> Precedes(nums[i], nums[j])
  }

  /** A cell of a number refers to that number, when the numbers do not
      overlap. */
  lemma {:induction false} CellMapOwner(nums: seq<Number>, i: nat, q: Pos)
    requires Ordered(nums) && i < |nums| && InCells(q, nums[i])
    ensures q in CellMap(nums) && CellMap(nums)[q] == i
    decreases |nums|
  {
    var m := |nums| - 1;
    var n := nums[m];
    CellsSpec(n.at, n.y, n.len, m, q);
    if i < m {
      assert Precedes(nums[i], n);
      var init := nums[..m];
      assert init[i] == nums[i];
      CellMapOwner(init, i, q);
    }
  }

  /** Every cell in the map refers to a number it belongs to. */
  lemma {:induction false} CellMapBelongs(nums: seq<Number>, q: Pos)
    requires q in CellMap(nums)
    ensures CellMap(nums)[q] < |nums| && InCells(q, nums[CellMap(nums)[q]])
    decreases |nums|
  {
    var m := |nums| - 1;
    var n := nums[m];
    CellsSpec(n.at, n.y, n.len, m, q);
    if q !in Cells(n.at, n.y, n.len, m) {
      var init := nums[..m];
      CellMapBelongs(init, q);
      assert init[CellMap(init)[q]] == nums[CellMap(init)[q]];
    }
  }

  lemma OrderedAppend(a: seq<Number>, b: seq<Number>)
    requires Ordered(a) && Ordered(b)
    requires forall i, j :: 0 <= i < |a| && 0 <= j < |b| ==> Precedes(a[i], b[j])
    ensures Ordered(a + b)
  {
    var ab := a + b;
    forall i, j | 0 <= i < j < |ab|
      ensures Precedes(ab[i], ab[j])
    {
      if j < |a| {
        assert ab[i] == a[i] && ab[j] == a[j];
      } else if i < |a| {
        assert ab[i] == a[i] && ab[j] == b[j - |a|];
      } else {
        assert ab[i] == b[i - |a|] && ab[j] == b[j - |a|];
      }
    }
  }

  /** The numbers of a line lie on it, from one column before `x` on, and
      do not overlap. */
  lemma {:induction false} LineNumbersOrdered(l: string, y: int, x: nat)
    requires x <= |l|
    ensures forall k :: 0 <= k < |LineNumbers(l, y, x)| ==>
      LineNumbers(l, y, x)[k].y == y && LineNumbers(l, y, x)[k].at - LineNumbers(l, y, x)[k].len >= x - 1
    ensures Ordered(LineNumbers(l, y, x))
    decreases |l| - x
  {
    if x < |l| {
      if !Text.IsAsciiDigit(l[x]) {
        LineNumbersOrdered(l, y, x + 1);
      } else if RunEnd(l, x) < |l| {
        var e := RunEnd(l, x);
        LineNumbersOrdered(l, y, e + 1);
        var rest := LineNumbers(l, y, e + 1);
        OrderedAppend([NumberAt(l, y, x)], rest);
      }
    }
  }

  /** The numbers of lines `y` on lie on those lines, in reading order. */
  lemma {:induction false} AllNumbersOrdered(ls: seq<string>, y: int)
    ensures forall k :: 0 <= k < |AllNumbers(ls, y)| ==> AllNumbers(ls, y)[k].y >= y
    ensures Ordered(AllNumbers(ls, y))
    decreases |ls|
  {
    if |ls| > 0 {
      var line := LineNumbers(ls[0], y, 0);
      var rest := AllNumbers(ls[1..], y + 1);
      LineNumbersOrdered(ls[0], y, 0);
      AllNumbersOrdered(ls[1..], y + 1);
      OrderedAppend(line, rest);
      assert AllNumbers(ls, y) == line + rest;
      forall k | 0 <= k < |line + rest|
        ensures (line + rest)[k].y >= y
      {
        if k >= |line| {
          assert (line + rest)[k] == rest[k - |line|];
        }
      }
    }
  }

  lemma AllOrdered(ls: seq<string>)
    ensures Ordered(AllNumbers(ls, 0))
  {
    AllNumbersOrdered(ls, 0);
  }

  /** Data that holds numbers that do not overlap lists them in order, none
      marked as a part; the cells of each number, and only those, refer to
      it; every cell refers to an entry that exists. */
  lemma HeldNumbers(d: Data, nums: seq<Number>)
    requires Holds(d, nums) && Ordered(nums)
    ensures |d.ids| == |nums|
    ensures forall i :: 0 <= i < |nums| ==> d.ids[i] == (nums[i].value, false)
    ensures forall i, q :: 0 <= i < |nums| && InCells(q, nums[i]) ==> q in d.idMap && d.idMap[q] == i
    ensures forall q :: q in d.idMap ==> d.idMap[q] < |nums| && InCells(q, nums[d.idMap[q]])
    ensures WellFormed(d)
  {
    IdsOfSpec(nums);
    forall i, q | 0 <= i < |nums| && InCells(q, nums[i])
      ensures q in d.idMap && d.idMap[q] == i
    {
      CellMapOwner(nums, i, q);
    }
    forall q | q in d.idMap
      ensures d.idMap[q] < |nums| && InCells(q, nums[d.idMap[q]])
    {
      CellMapBelongs(nums, q);
    }
  }

  lemma HeldWellFormed(d: Data, nums: seq<Number>)
    requires Holds(d, nums)
    ensures WellFormed(d)
  {
    IdsOfSpec(nums);
    forall q | q in d.idMap
      ensures d.idMap[q] < |d.ids|
    {
      CellMapBelongs(nums, q);
    }
  }

  // ---------------------------------------------------------------------
  // The symbols

  /** Column `p.0` of line `l`, which is line `y`, at or after column `x`,
      holds a symbol. */
  predicate SymbolIn(l: string, y: int, x: nat, p: Pos) {
    p.1 == y && x <= p.0 < |l| && IsSymbol(l[p.0])
  }

  /** Scanning line `y` from column `x` on records the symbols there, and
      leaves the symbols recorded before alone. */
  lemma {:induction false} ScanLineParts(s: Scanner, l: string, y: int, x: nat, p: Pos)
    requires x <= |l| && Text.AllDigits(s.digits)
    ensures p in ScanLine(s, l, y, x).data.parts <==> p in s.data.parts || SymbolIn(l, y, x, p)
    ensures p in ScanLine(s, l, y, x).data.parts ==>
      ScanLine(s, l, y, x).data.parts[p] == if SymbolIn(l, y, x, p) then l[p.0] else s.data.parts[p]
    decreases |l| - x
  {
    if x < |l| {
      ScanLineParts(Step(s, l, x, y), l, y, x + 1, p);
    }
  }

  /** Column `p.0` of line `p.1` holds a symbol, the first of the lines
      `ls` being line `y`. */
  predicate SymbolOf(ls: seq<string>, y: int, p: Pos) {
    y <= p.1 < y + |ls| && 0 <= p.0 < |ls[p.1 - y]| && IsSymbol(ls[p.1 - y][p.0])
  }

  lemma {:induction false} ScanLinesParts(s: Scanner, ls: seq<string>, y: int, p: Pos)
    requires s.digits == ""
    ensures p in ScanLines(s, ls, y).data.parts <==> p in s.data.parts || SymbolOf(ls, y, p)
    ensures p in ScanLines(s, ls, y).data.parts ==>
      ScanLines(s, ls, y).data.parts[p] == if SymbolOf(ls, y, p) then ls[p.1 - y][p.0] else s.data.parts[p]
    decreases |ls|
  {
    if |ls| > 0 {
      ScanLineParts(s, ls[0], y, 0, p);
      ScanLinesParts(ScanLine(s, ls[0], y, 0), ls[1..], y + 1, p);
      if y < p.1 < y + |ls| {
        assert ls[1..][p.1 - (y + 1)] == ls[p.1 - y];
      }
    }
  }

  /** `parts` holds exactly the symbols of the schematic, each at its own
      position. */
  lemma ReadParts(input: string, p: Pos)
    ensures p in Read(input).parts <==> SymbolOf(Text.Lines(input), 0, p)
    ensures p in Read(input).parts ==> Read(input).parts[p] == Text.Lines(input)[p.1][p.0]
  {
    ScanLinesParts(Scanner(Empty, ""), Text.Lines(input), 0, p);
  }

  /** The symbols of line `l`, which is line `y`, from column `x` on, each
      at its position. */
  function LineSymbols(l: string, y: int, x: nat): map<Pos, char>
    requires x <= |l|
    decreases |l| - x
  {
    if x == |l| then map[]
    else if IsSymbol(l[x]) then LineSymbols(l, y, x + 1)[(x, y) := l[x]]
    else LineSymbols(l, y, x + 1)
  }

  lemma {:induction false} LineSymbolsSpec(l: string, y: int, x: nat, p: Pos)
    requires x <= |l|
    ensures p in LineSymbols(l, y, x) <==> SymbolIn(l, y, x, p)
    ensures p in LineSymbols(l, y, x) ==> LineSymbols(l, y, x)[p] == l[p.0]
    decreases |l| - x
  {
    if x < |l| {
      LineSymbolsSpec(l, y, x + 1, p);
    }
  }

  /** The symbols of the lines `ls`, the first of them being line `y`. */
  function GridSymbols(ls: seq<string>, y: int): map<Pos, char>
    decreases |ls|
  {
    if |ls| == 0 then map[] else LineSymbols(ls[0], y, 0) + GridSymbols(ls[1..], y + 1)
  }

  lemma {:induction false} GridSymbolsSpec(ls: seq<string>, y: int, p: Pos)
    ensures p in GridSymbols(ls, y) <==> SymbolOf(ls, y, p)
    ensures p in GridSymbols(ls, y) ==> GridSymbols(ls, y)[p] == ls[p.1 - y][p.0]
    decreases |ls|
  {
    if |ls| > 0 {
      LineSymbolsSpec(ls[0], y, 0, p);
      GridSymbolsSpec(ls[1..], y + 1, p);
      if y < p.1 < y + |ls| {
        assert ls[1..][p.1 - (y + 1)] == ls[p.1 - y];
      }
    }
  }

  /** `parts` is the map of the schematic's symbols, line by line. */
  lemma ReadPartsGrid(input: string)
    ensures Read(input).parts == GridSymbols(Text.Lines(input), 0)
  {
    var ls := Text.Lines(input);
    forall p
      ensures p in Read(input).parts <==> p in GridSymbols(ls, 0)
      ensures p in Read(input).parts ==> Read(input).parts[p] == GridSymbols(ls, 0)[p]
    {
      ReadParts(input, p);
      GridSymbolsSpec(ls, 0, p);
    }
  }

  /** The symbols of `d` are those of the schematic `ls`. */
  ghost predicate PartsOf(d: Data, ls: seq<string>) {
    forall p :: (p in d.parts <==> SymbolOf(ls, 0, p)) && (p in d.parts ==> d.parts[p] == ls[p.1][p.0])
  }

  /** `d` is what `Data::from_str` reads from the schematic `ls` with the
      numbers `nums`. */
  ghost predicate Describes(d: Data, ls: seq<string>, nums: seq<Number>) {
    Holds(d, nums) && Ordered(nums) && PartsOf(d, ls)
  }

  lemma ReadDescribes(input: string)
    ensures Describes(Read(input), Text.Lines(input), AllNumbers(Text.Lines(input), 0))
  {
    ReadHolds(input);
    AllOrdered(Text.Lines(input));
    forall p {
      ReadParts(input, p);
    }
  }

  /** A number that ends its line owns the column before its first digit
      and not its last digit: on the line `#.12` the `#` touches 12. */
  lemma EndOfLineShift(ls: seq<string>, nums: seq<Number>)
    requires ls == ["#.12"] && nums == AllNumbers(ls, 0)
    ensures nums == [Number(12, 0, 3, 2)]
    ensures InCells((1, 0), nums[0]) && !InCells((3, 0), nums[0])
    ensures SymbolOf(ls, 0, (0, 0)) && Adjacent((0, 0), (1, 0))
  {
    var l := ls[0];
    assert RunEnd(l, 2) == 4;
    assert l[2..4] == "12";
    assert Text.DigitsValue("12") == 12;
    assert LineNumbers(l, 0, 2) == [Number(12, 0, 3, 2)];
    assert LineNumbers(l, 0, 0) == LineNumbers(l, 0, 2);
    assert ls[1..] == [];
  }

  // ---------------------------------------------------------------------
  // Part 1

  predicate Adjacent(p: Pos, q: Pos) {
    -1 <= q.0 - p.0 <= 1 && -1 <= q.1 - p.1 <= 1
  }

  /** The 3×3 block around `p`, in the order of the loops over `xi` and,
      inside, over `yi`. */
  function Block(p: Pos): (r: seq<Pos>)
    ensures |r| == 9 && forall q :: q in r <==> Adjacent(p, q)
  {
    var (x, y) := p;
    [(x - 1, y - 1), (x - 1, y), (x - 1, y + 1),
     (x, y - 1), (x, y), (x, y + 1),
     (x + 1, y - 1), (x + 1, y), (x + 1, y + 1)]
  }

  /** The blocks around the positions of `order`, one after the other. */
  function Around(order: seq<Pos>): seq<Pos> {
    if |order| == 0 then [] else Block(order[0]) + Around(order[1..])
  }

  lemma {:induction false} AroundSpec(order: seq<Pos>, q: Pos)
    ensures q in Around(order) <==> exists p :: p in order && Adjacent(p, q)
    decreases |order|
  {
    if |order| > 0 {
      AroundSpec(order[1..], q);
      assert forall p :: p in order <==> p == order[0] || p in order[1..];
    }
  }

  /** `data.ids[*idx].1 = true` for every cell of `qs` that refers to a
      number. */
  function MarkCells(ids: seq<(nat, bool)>, idMap: map<Pos, nat>, qs: seq<Pos>): (r: seq<(nat, bool)>)
    requires forall q :: q in idMap ==> idMap[q] < |ids|
    ensures |r| == |ids|
    decreases |qs|
  {
    if |qs| == 0 then ids
    else
      var ids' := if qs[0] in idMap then ids[idMap[qs[0]] := (ids[idMap[qs[0]]].0, true)] else ids;
      MarkCells(ids', idMap, qs[1..])
  }

  /** An entry ends up marked when it was, or when some cell of `qs`
      refers to it; its value stays. */
  lemma {:induction false} MarkCellsSpec(ids: seq<(nat, bool)>, idMap: map<Pos, nat>, qs: seq<Pos>, i: nat)
    requires forall q :: q in idMap ==> idMap[q] < |ids|
    requires i < |ids|
    ensures MarkCells(ids, idMap, qs)[i].0 == ids[i].0
    ensures MarkCells(ids, idMap, qs)[i].1 <==> ids[i].1 || exists q :: q in qs && q in idMap && idMap[q] == i
    decreases |qs|
  {
    if |qs| > 0 {
      var ids' := if qs[0] in idMap then ids[idMap[qs[0]] := (ids[idMap[qs[0]]].0, true)] else ids;
      MarkCellsSpec(ids', idMap, qs[1..], i);
      assert forall q :: q in qs <==> q == qs[0] || q in qs[1..];
    }
  }

  /** Some cell that refers to entry `i` lies in the block around one of
      the positions of `order`. */
  ghost predicate Touched(d: Data, order: seq<Pos>, i: nat) {
    exists p, q :: p in order && Adjacent(p, q) && q in d.idMap && d.idMap[q] == i
  }

  /** The entries as `part1` leaves them: marked when they were or when
      they are touched. */
  ghost function Marked(d: Data, order: seq<Pos>): (r: seq<(nat, bool)>) {
    seq(|d.ids|, i requires 0 <= i < |d.ids| => (d.ids[i].0, d.ids[i].1 || Touched(d, order, i)))
  }

  /** The value of an entry marked as a part, and 0 for any other. */
  function Counted(e: (nat, bool)): int {
    if e.1 then e.0 else 0
  }

  /** `part1`, with the symbols visited in the order `order`. */
  function Part1(d: Data, order: seq<Pos>): int
    requires WellFormed(d)
  {
    Seqs.Sum(Seqs.Image(Counted, MarkCells(d.ids, d.idMap, Around(order))))
  }

  /** `part1` marks every entry that some symbol touches, and only those. */
  lemma Part1Marks(d: Data, order: seq<Pos>)
    requires WellFormed(d)
    ensures MarkCells(d.ids, d.idMap, Around(order)) == Marked(d, order)
    ensures Part1(d, order) == Seqs.Sum(Seqs.Image(Counted, Marked(d, order)))
  {
    var r := MarkCells(d.ids, d.idMap, Around(order));
    forall i | 0 <= i < |d.ids|
      ensures r[i] == Marked(d, order)[i]
    {
      MarkCellsSpec(d.ids, d.idMap, Around(order), i);
      forall q
        ensures q in Around(order) <==> exists p :: p in order && Adjacent(p, q)
      {
        AroundSpec(order, q);
      }
    }
  }

  /** The result of `part1` depends on which symbols there are, not on the
      order the map hands them out in. */
  lemma Part1OrderFree(d: Data, order: seq<Pos>, order': seq<Pos>)
    requires WellFormed(d)
    requires forall p :: p in order <==> p in order'
    ensures Part1(d, order) == Part1(d, order')
  {
    Part1Marks(d, order);
    Part1Marks(d, order');
    assert Marked(d, order) == Marked(d, order') by {
      forall i | 0 <= i < |d.ids|
        ensures Touched(d, order, i) == Touched(d, order', i)
      {
      }
    }
  }
  /** A number touches a symbol of the schematic `ls` with one of its
      cells, also diagonally. */
  ghost predicate IsPartNumber(ls: seq<string>, n: Number) {
    exists p, q :: SymbolOf(ls, 0, p) && InCells(q, n) && Adjacent(p, q)
  }

  ghost function PartValue(ls: seq<string>, n: Number): int {
    if IsPartNumber(ls, n) then n.value else 0
  }

  /** An entry of the schematic's data is touched exactly when its number
      is a part number. */
  lemma TouchedIsPart(d: Data, ls: seq<string>, nums: seq<Number>, order: seq<Pos>, i: nat)
    requires Describes(d, ls, nums) && i < |nums|
    requires forall p :: p in order <==> p in d.parts
    ensures Touched(d, order, i) <==> IsPartNumber(ls, nums[i])
  {
    if Touched(d, order, i) {
      var p, q :| p in order && Adjacent(p, q) && q in d.idMap && d.idMap[q] == i;
      CellMapBelongs(nums, q);
      assert SymbolOf(ls, 0, p) && InCells(q, nums[i]);
    }
    if IsPartNumber(ls, nums[i]) {
      var p, q :| SymbolOf(ls, 0, p) && InCells(q, nums[i]) && Adjacent(p, q);
      CellMapOwner(nums, i, q);
      assert p in order && q in d.idMap && d.idMap[q] == i;
    }
  }

  /** On the data of a schematic, `part1` adds up the values of its part
      numbers, each once. */
  lemma Part1Described(d: Data, ls: seq<string>, nums: seq<Number>, order: seq<Pos>)
    requires Describes(d, ls, nums)
    requires forall p :: p in order <==> p in d.parts
    ensures WellFormed(d)
    ensures Part1(d, order) == Seqs.Sum(Seqs.Image(n => PartValue(ls, n), nums))
  {
    IdsOfSpec(nums);
    HeldWellFormed(d, nums);
    Part1Marks(d, order);
    var counted := Seqs.Image(Counted, Marked(d, order));
    var parts := Seqs.Image(n => PartValue(ls, n), nums);
    forall i | 0 <= i < |nums|
      ensures counted[i] == parts[i]
    {
      TouchedIsPart(d, ls, nums, order, i);
    }
    assert counted == parts;
  }

  /** `part1` on a schematic adds up the values of its part numbers, each
      once, whatever order the symbols are visited in. */
  lemma Part1OfSchematic(input: string, order: seq<Pos>)
    requires forall p :: p in order <==> p in Read(input).parts
    ensures WellFormed(Read(input))
    ensures Part1(Read(input), order) == Seqs.Sum(Seqs.Image(n => PartValue(Text.Lines(input), n), AllNumbers(Text.Lines(input), 0)))
  {
    ReadDescribes(input);
    Part1Described(Read(input), Text.Lines(input), AllNumbers(Text.Lines(input), 0), order);
  }

  // ---------------------------------------------------------------------
  // Part 2

  /** `<=` on values, the order `ids.sort()` uses. */
  function ValueOrder(): (le: (nat, nat) -> bool)
    ensures Sorting.Total(le) && Sorting.Transitive(le)
    ensures forall a, b :: le(a, b) <==> a <= b
  {
    (a: nat, b: nat) => a <= b
  }

  /** `Vec::dedup`: drop every element equal to the one before it. */
  function Dedup(s: seq<nat>): seq<nat>
    decreases |s|
  {
    if |s| <= 1 then s
    else if s[0] == s[1] then Dedup(s[1..])
    else [s[0]] + Dedup(s[1..])
  }

  predicate Increasing(u: seq<nat>) {
    forall i, j :: 0 <= i < j < |u| ==> u[i] < u[j]
  }

  /** Deduplicating a sorted sequence keeps each of its values once, in
      increasing order. */
  lemma {:induction false} DedupSpec(s: seq<nat>)
    requires Sorting.Sorted(ValueOrder(), s)
    ensures forall v :: v in Dedup(s) <==> v in s
    ensures Increasing(Dedup(s))
    decreases |s|
  {
    if |s| > 1 {
      Sorting.SortedTail(ValueOrder(), s);
      DedupSpec(s[1..]);
      assert forall v :: v in s <==> v == s[0] || v in s[1..];
      if s[0] != s[1] {
        var rest := Dedup(s[1..]);
        forall k | 0 <= k < |rest|
          ensures s[0] < rest[k]
        {
          assert rest[k] in s[1..];
          var j :| 0 <= j < |s[1..]| && s[1..][j] == rest[k];
          assert ValueOrder()(s[0], s[1]) && ValueOrder()(s[1], s[j + 1]) by {
            if j > 0 {
              assert ValueOrder()(s[1], s[j + 1]);
            }
          }
        }
        var r := [s[0]] + rest;
        forall i, j | 0 <= i < j < |r|
          ensures r[i] < r[j]
        {
          assert r[j] == rest[j - 1];
          if i > 0 {
            assert r[i] == rest[i - 1];
          }
        }
      }
    }
  }

  /** `ids.sort(); ids.dedup();` */
  function SortDedup(vals: seq<nat>): seq<nat> {
    Dedup(Sorting.Sort(ValueOrder(), vals))
  }

  lemma SortDedupSpec(vals: seq<nat>)
    ensures forall v :: v in SortDedup(vals) <==> v in vals
    ensures Increasing(SortDedup(vals))
  {
    var sorted := Sorting.Sort(ValueOrder(), vals);
    DedupSpec(sorted);
    assert forall v :: v in sorted <==> v in multiset(sorted);
    assert forall v :: v in vals <==> v in multiset(vals);
  }

  /** What a gear adds once its values are sorted and deduplicated: their
      product when there are two, and 0 otherwise. */
  function Ratio(vals: seq<nat>): nat {
    var u := SortDedup(vals);
    if |u| == 2 then u[0] * u[1] else 0
  }

  /** `s` is the set of the two values `a < b`. */
  ghost predicate IsPair(s: set<nat>, a: nat, b: nat) {
    a < b && s == {a, b}
  }

  /** The rule for a gear: the product of its values when there are
      exactly two distinct ones, and 0 otherwise. */
  ghost function GearRule(s: set<nat>): nat {
    if exists a: nat, b: nat :: IsPair(s, a, b) then
      var a: nat, b: nat :| IsPair(s, a, b);
      a * b
    else 0
  }

  /** An increasing sequence holding exactly the values `a < b` is `[a, b]`. */
  lemma IncreasingPair(u: seq<nat>, a: nat, b: nat)
    requires Increasing(u) && a < b
    requires forall v :: v in u <==> v == a || v == b
    ensures u == [a, b]
  {
    assert a in u && b in u;
    var i :| 0 <= i < |u| && u[i] == a;
    var j :| 0 <= j < |u| && u[j] == b;
    assert i < j;
    forall k | 0 <= k < |u|
      ensures (u[k] == u[i] && k == i) || (u[k] == u[j] && k == j)
    {
      assert u[k] in u;
    }
    var first, second, last := u[0], u[1], u[|u| - 1];
    assert i == 0 && j == 1 && |u| == 2;
  }

  /** The distinct values of `vals`. */
  function Values(vals: seq<nat>): set<nat> {
    set v | v in vals
  }

  /** `Ratio` follows the rule for gears, on the set of the values. */
  lemma RatioRule(vals: seq<nat>)
    ensures Ratio(vals) == GearRule(Values(vals))
  {
    var u := SortDedup(vals);
    var s := Values(vals);
    SortDedupSpec(vals);
    assert forall v :: v in u <==> v in s;
    if |u| == 2 {
      PairRule(u, s);
    } else if exists a: nat, b: nat :: IsPair(s, a, b) {
      var a: nat, b: nat :| IsPair(s, a, b);
      assert IsPair(s, a, b);
      IncreasingPair(u, a, b);
    }
  }

  lemma PairRule(u: seq<nat>, s: set<nat>)
    requires |u| == 2 && Increasing(u)
    requires forall v :: v in u <==> v in s
    ensures GearRule(s) == u[0] * u[1]
  {
    assert s == {u[0], u[1]} by {
      assert forall v :: v in s <==> v == u[0] || v == u[1];
    }
    assert IsPair(s, u[0], u[1]);
    var a: nat, b: nat :| IsPair(s, a, b);
    assert IsPair(s, a, b);
    assert a in s && b in s;
  }

  /** The values of the entries that the cells `qs` refer to, in order. */
  function ValuesIn(d: Data, qs: seq<Pos>): seq<nat>
    requires WellFormed(d)
    decreases |qs|
  {
    if |qs| == 0 then []
    else if qs[0] in d.idMap then [d.ids[d.idMap[qs[0]]].0] + ValuesIn(d, qs[1..])
    else ValuesIn(d, qs[1..])
  }

  lemma {:induction false} ValuesInSpec(d: Data, qs: seq<Pos>, v: nat)
    requires WellFormed(d)
    ensures v in ValuesIn(d, qs) <==> exists q :: q in qs && q in d.idMap && d.ids[d.idMap[q]].0 == v
    decreases |qs|
  {
    if |qs| > 0 {
      ValuesInSpec(d, qs[1..], v);
      assert forall q :: q in qs <==> q == qs[0] || q in qs[1..];
    }
  }

  predicate IsGear(d: Data, p: Pos) {
    p in d.parts && d.parts[p] == '*'
  }

  /** What the `*` at `p` adds to `part2`, each gear starting from an empty
      buffer. */
  function Gear(d: Data, p: Pos): nat
    requires WellFormed(d)
  {
    if IsGear(d, p) then Ratio(ValuesIn(d, Block(p))) else 0
  }

  /** `part2`, with the symbols visited in the order `order`. */
  function Part2(d: Data, order: seq<Pos>): int
    requires WellFormed(d)
  {
    Seqs.Sum(Seqs.Image(p => Gear(d, p), order))
  }

  lemma Part2Cons(d: Data, order: seq<Pos>)
    requires WellFormed(d) && |order| > 0
    ensures Part2(d, order) == Gear(d, order[0]) + Part2(d, order[1..])
  {
  }

  /** The result of `part2` does not depend on the order the map hands out
      the symbols in. */
  lemma Part2OrderFree(d: Data, order: seq<Pos>, order': seq<Pos>)
    requires WellFormed(d)
    requires multiset(order) == multiset(order')
    ensures Part2(d, order) == Part2(d, order')
  {
    Seqs.SumOfImagePermuted(p => Gear(d, p), order, order');
  }

  /** Number `n` has a cell in the block around `p`. */
  ghost predicate Touches(n: Number, p: Pos) {
    exists q :: InCells(q, n) && Adjacent(p, q)
  }

  /** `p` lies next to (or on) one of the columns `at - len .. at - 1` of
      line `y`. */
  predicate Near(n: Number, p: Pos) {
    n.y - 1 <= p.1 <= n.y + 1 && n.at - n.len - 1 <= p.0 <= n.at
  }

  /** A number with at least one digit touches exactly the positions near
      its cells. */
  lemma TouchesNear(n: Number, p: Pos)
    requires n.len > 0
    ensures Touches(n, p) <==> Near(n, p)
  {
    if Near(n, p) {
      var x := if p.0 < n.at - n.len then n.at - n.len else if p.0 >= n.at then n.at - 1 else p.0;
      assert InCells((x, n.y), n) && Adjacent(p, (x, n.y));
    }
  }

  /** The values of the numbers that touch `p`. */
  ghost function TouchingValues(nums: seq<Number>, p: Pos): set<nat> {
    set i | 0 <= i < |nums| && Touches(nums[i], p) :: nums[i].value
  }

  /** Around every position of a schematic, `part2` sees the values of the
      numbers that touch it. */
  lemma ValuesAround(d: Data, ls: seq<string>, nums: seq<Number>, p: Pos)
    requires Describes(d, ls, nums)
    ensures WellFormed(d)
    ensures Values(ValuesIn(d, Block(p))) == TouchingValues(nums, p)
  {
    HeldWellFormed(d, nums);
    forall v | v in ValuesIn(d, Block(p))
      ensures v in TouchingValues(nums, p)
    {
      ValueTouches(d, ls, nums, p, v);
    }
    forall v | v in TouchingValues(nums, p)
      ensures v in ValuesIn(d, Block(p))
    {
      TouchingValueSeen(d, ls, nums, p, v);
    }
  }

  lemma ValueTouches(d: Data, ls: seq<string>, nums: seq<Number>, p: Pos, v: nat)
    requires Describes(d, ls, nums) && WellFormed(d) && v in ValuesIn(d, Block(p))
    ensures v in TouchingValues(nums, p)
  {
    ValuesInSpec(d, Block(p), v);
    var q :| q in Block(p) && q in d.idMap && d.ids[d.idMap[q]].0 == v;
    var i := d.idMap[q];
    CellMapBelongs(nums, q);
    IdsOfSpec(nums);
    assert Touches(nums[i], p);
  }

  lemma TouchingValueSeen(d: Data, ls: seq<string>, nums: seq<Number>, p: Pos, v: nat)
    requires Describes(d, ls, nums) && WellFormed(d) && v in TouchingValues(nums, p)
    ensures v in ValuesIn(d, Block(p))
  {
    var i :| 0 <= i < |nums| && Touches(nums[i], p) && nums[i].value == v;
    var q :| InCells(q, nums[i]) && Adjacent(p, q);
    CellMapOwner(nums, i, q);
    IdsOfSpec(nums);
    ValuesInSpec(d, Block(p), v);
    assert q in Block(p) && q in d.idMap && d.ids[d.idMap[q]].0 == v;
  }

  /** Line `p.1` of the schematic `ls` holds a `*` at column `p.0`. */
  predicate GearIn(ls: seq<string>, p: Pos) {
    0 <= p.1 < |ls| && 0 <= p.0 < |ls[p.1]| && ls[p.1][p.0] == '*'
  }

  /** On a schematic, the `*` at `p` adds the product of the two values
      that touch it when there are exactly two distinct ones, and anything
      else adds 0. */
  lemma GearOfSchematic(d: Data, ls: seq<string>, nums: seq<Number>, p: Pos)
    requires Describes(d, ls, nums)
    ensures WellFormed(d)
    ensures Gear(d, p) == if GearIn(ls, p) then GearRule(TouchingValues(nums, p)) else 0
  {
    ValuesAround(d, ls, nums, p);
    assert IsGear(d, p) <==> GearIn(ls, p) by {
      assert IsSymbol('*');
    }
    if IsGear(d, p) {
      RatioRule(ValuesIn(d, Block(p)));
    }
  }

  /** What the `*`s of `order` add by the rule for gears, on the schematic
      `ls` with the numbers `nums`. */
  ghost function RuleGears(ls: seq<string>, nums: seq<Number>, order: seq<Pos>): int
    decreases |order|
  {
    if |order| == 0 then 0 else RuleGear(ls, nums, order[0]) + RuleGears(ls, nums, order[1..])
  }

  ghost function RuleGear(ls: seq<string>, nums: seq<Number>, p: Pos): nat {
    if GearIn(ls, p) then GearRule(TouchingValues(nums, p)) else 0
  }

  lemma {:induction false} Part2Described(d: Data, ls: seq<string>, nums: seq<Number>, order: seq<Pos>)
    requires Describes(d, ls, nums)
    ensures WellFormed(d)
    ensures Part2(d, order) == RuleGears(ls, nums, order)
    decreases |order|
  {
    HeldWellFormed(d, nums);
    if |order| > 0 {
      Part2Cons(d, order);
      GearOfSchematic(d, ls, nums, order[0]);
      Part2Described(d, ls, nums, order[1..]);
    }
  }

  /** `part2` on a schematic adds, for every `*`, the product of the two
      values that touch it when there are exactly two distinct ones. */
  lemma Part2OfSchematic(input: string, order: seq<Pos>)
    ensures WellFormed(Read(input))
    ensures Part2(Read(input), order) == RuleGears(Text.Lines(input), AllNumbers(Text.Lines(input), 0), order)
  {
    ReadDescribes(input);
    Part2Described(Read(input), Text.Lines(input), AllNumbers(Text.Lines(input), 0), order);
  }

  // ---------------------------------------------------------------------
  // Part 2 as written: the buffer that carries over

  /** `part2` as written: the buffer `ids` is only emptied by `drain`, when
      a gear has exactly two values, so the values of a gear with any
      other number of them are still there for the next gear. */
  function GearsAsWritten(d: Data, order: seq<Pos>, buf: seq<nat>): int
    requires WellFormed(d)
    decreases |order|
  {
    if |order| == 0 then 0
    else if IsGear(d, order[0]) then
      var u := SortDedup(buf + ValuesIn(d, Block(order[0])));
      if |u| == 2 then u[0] * u[1] + GearsAsWritten(d, order[1..], [])
      else GearsAsWritten(d, order[1..], u)
    else GearsAsWritten(d, order[1..], buf)
  }

  function Part2AsWritten(d: Data, order: seq<Pos>): int
    requires WellFormed(d)
  {
    GearsAsWritten(d, order, [])
  }

  /** Each gear of `order` has no value or exactly two distinct ones. */
  predicate NoLeftover(d: Data, order: seq<Pos>)
    requires WellFormed(d)
  {
    forall k :: 0 <= k < |order| && IsGear(d, order[k]) ==> |SortDedup(ValuesIn(d, Block(order[k])))| in {0, 2}
  }

  lemma NoLeftoverTail(d: Data, order: seq<Pos>)
    requires WellFormed(d) && |order| > 0 && NoLeftover(d, order)
    ensures NoLeftover(d, order[1..])
  {
    forall k | 0 <= k < |order[1..]| && IsGear(d, order[1..][k])
      ensures |SortDedup(ValuesIn(d, Block(order[1..][k])))| in {0, 2}
    {
      assert order[1..][k] == order[k + 1];
    }
  }

  /** When no gear leaves values behind, `part2` as written computes the
      sum of the gears. */
  lemma {:induction false} AsWrittenAgrees(d: Data, order: seq<Pos>)
    requires WellFormed(d) && NoLeftover(d, order)
    ensures Part2AsWritten(d, order) == Part2(d, order)
    decreases |order|
  {
    if |order| > 0 {
      NoLeftoverTail(d, order);
      AsWrittenAgrees(d, order[1..]);
      var p := order[0];
      if IsGear(d, p) {
        var vals := ValuesIn(d, Block(p));
        assert [] + vals == vals;
        if |SortDedup(vals)| == 0 {
          assert SortDedup([]) == [];
        }
      }
    }
  }

  /** The positions of `order` that hold a `*`, in order: what
      `filter_map` passes on to the gear computation. */
  function GearsIn(d: Data, order: seq<Pos>): (g: seq<Pos>)
    ensures forall p :: p in g ==> IsGear(d, p)
    decreases |order|
  {
    if |order| == 0 then []
    else if IsGear(d, order[0]) then [order[0]] + GearsIn(d, order[1..])
    else GearsIn(d, order[1..])
  }

  /** Each `*` appears among the gears as often as in `order`, and
      nothing else appears. */
  lemma {:induction false} GearsInCount(d: Data, order: seq<Pos>, p: Pos)
    ensures multiset(GearsIn(d, order))[p] == if IsGear(d, p) then multiset(order)[p] else 0
    decreases |order|
  {
    if |order| > 0 {
      GearsInCount(d, order[1..], p);
      assert order == [order[0]] + order[1..];
    }
  }

  /** Symbols other than `*` leave the buffer and the sum alone. */
  lemma {:induction false} AsWrittenSkips(d: Data, order: seq<Pos>, buf: seq<nat>)
    requires WellFormed(d)
    ensures GearsAsWritten(d, order, buf) == GearsAsWritten(d, GearsIn(d, order), buf)
    decreases |order|
  {
    if |order| > 0 {
      var g := GearsIn(d, order);
      if IsGear(d, order[0]) {
        assert g[0] == order[0] && g[1..] == GearsIn(d, order[1..]);
        var u := SortDedup(buf + ValuesIn(d, Block(order[0])));
        AsWrittenSkips(d, order[1..], []);
        AsWrittenSkips(d, order[1..], u);
      } else {
        AsWrittenSkips(d, order[1..], buf);
      }
    }
  }

  lemma ValuesAppend(a: seq<nat>, b: seq<nat>)
    ensures Values(a + b) == Values(a) + Values(b)
  {
    assert forall v :: v in a + b <==> v in a || v in b;
  }

  /** An increasing sequence holds as many distinct values as it has
      elements. */
  lemma {:induction false} IncreasingCard(u: seq<nat>)
    requires Increasing(u)
    ensures |Values(u)| == |u|
    decreases |u|
  {
    if |u| > 0 {
      var t := u[1..];
      assert Increasing(t) by {
        forall i, j | 0 <= i < j < |t|
          ensures t[i] < t[j]
        {
          assert t[i] == u[i + 1] && t[j] == u[j + 1];
        }
      }
      IncreasingCard(t);
      assert Values(u) == {u[0]} + Values(t) by {
        assert forall v :: v in u <==> v == u[0] || v in t;
      }
      assert u[0] !in Values(t) by {
        forall k | 0 <= k < |t|
          ensures t[k] != u[0]
        {
          assert t[k] == u[k + 1];
        }
      }
    }
  }

  /** One `*` of `part2` as written, in terms of the distinct values in the
      buffer once its own are added: with exactly two it adds their
      product and empties the buffer; otherwise it adds nothing and keeps
      them all. */
  lemma GearAsWritten(d: Data, order: seq<Pos>, buf: seq<nat>)
    requires WellFormed(d) && |order| > 0 && IsGear(d, order[0])
    ensures Values(SortDedup(buf + ValuesIn(d, Block(order[0])))) == Values(buf) + Values(ValuesIn(d, Block(order[0])))
    ensures GearsAsWritten(d, order, buf) ==
      if |Values(buf) + Values(ValuesIn(d, Block(order[0])))| == 2
      then GearRule(Values(buf) + Values(ValuesIn(d, Block(order[0])))) + GearsAsWritten(d, order[1..], [])
      else GearsAsWritten(d, order[1..], SortDedup(buf + ValuesIn(d, Block(order[0]))))
  {
    var vals := buf + ValuesIn(d, Block(order[0]));
    var u := SortDedup(vals);
    ValuesAppend(buf, ValuesIn(d, Block(order[0])));
    SortDedupSpec(vals);
    assert Values(u) == Values(vals);
    IncreasingCard(u);
    if |u| == 2 {
      PairRule(u, Values(vals));
    }
  }

  /** The schematic line `2*.*3.`, as `Data::from_str` reads it
      (`ReadLeftover`). */
  const Leftover := Data([(2, false), (3, false)], map[(0, 0) := 0, (4, 0) := 1], map[(1, 0) := '*', (3, 0) := '*'])

  /** The scan of `2*.*3.` after its first two and its first four
      characters. */
  const LeftoverAfter2 := Data([(2, false)], map[(0, 0) := 0], map[(1, 0) := '*'])
  const LeftoverAfter4 := Data([(2, false)], map[(0, 0) := 0], map[(1, 0) := '*', (3, 0) := '*'])

  /** Two characters of the scan at once. */
  lemma ScanTwo(s: Scanner, l: string, y: int, x: nat)
    requires x + 2 <= |l| && Text.AllDigits(s.digits)
    ensures ScanLine(s, l, y, x) == ScanLine(Step(Step(s, l, x, y), l, x + 1, y), l, y, x + 2)
  {
  }

  lemma ScanLeftover01(l: string)
    requires l == "2*.*3."
    ensures Step(Step(Scanner(Empty, ""), l, 0, 0), l, 1, 0) == Scanner(LeftoverAfter2, "")
  {
    var s1 := Step(Scanner(Empty, ""), l, 0, 0);
    assert s1 == Scanner(Empty, "2");
    assert Text.DigitsValue("2") == 2;
    assert Cells(1, 0, 1, 0) == map[(0, 0) := 0];
  }

  lemma ScanLeftover23(l: string)
    requires l == "2*.*3."
    ensures Step(Step(Scanner(LeftoverAfter2, ""), l, 2, 0), l, 3, 0) == Scanner(LeftoverAfter4, "")
  {
    var s3 := Step(Scanner(LeftoverAfter2, ""), l, 2, 0);
    assert s3 == Scanner(LeftoverAfter2, "");
  }

  lemma ScanLeftover45(l: string)
    requires l == "2*.*3."
    ensures Step(Step(Scanner(LeftoverAfter4, ""), l, 4, 0), l, 5, 0) == Scanner(Leftover, "")
  {
    var s5 := Step(Scanner(LeftoverAfter4, ""), l, 4, 0);
    assert s5 == Scanner(LeftoverAfter4, "3");
    assert Text.DigitsValue("3") == 3;
    assert Cells(5, 0, 1, 1) == map[(4, 0) := 1];
  }

  /** The scan of `2*.*3.`, two characters at a time. */
  lemma ScanLeftoverLine(l: string)
    requires l == "2*.*3."
    ensures ScanLine(Scanner(Empty, ""), l, 0, 0).data == Leftover
  {
    ScanTwo(Scanner(Empty, ""), l, 0, 0);
    ScanLeftover01(l);
    ScanTwo(Scanner(LeftoverAfter2, ""), l, 0, 2);
    ScanLeftover23(l);
    ScanTwo(Scanner(LeftoverAfter4, ""), l, 0, 4);
    ScanLeftover45(l);
  }

  /** `Data::from_str` on the one-line schematic `2*.*3.` gives `Leftover`. */
  lemma ReadLeftover()
    ensures Read(Text.Unlines(["2*.*3."])) == Leftover
  {
    var l := "2*.*3.";
    Text.LinesUnlines([l]);
    ScanLeftoverLine(l);
    var s := ScanLine(Scanner(Empty, ""), l, 0, 0);
    assert ScanLines(Scanner(Empty, ""), [l], 0) == ScanLines(s, [], 1) == s;
  }

  lemma SortDedupOne(v: nat)
    ensures SortDedup([v]) == [v]
  {
    assert Sorting.Sort(ValueOrder(), [v]) == [v];
  }

  lemma SortDedupTwo(a: nat, b: nat)
    requires a < b
    ensures SortDedup([a, b]) == [a, b]
  {
    SortDedupSpec([a, b]);
    IncreasingPair(SortDedup([a, b]), a, b);
  }


  /** When exactly one cell of `qs` refers to a number, `part2` sees that
      number's value alone. */
  lemma {:induction false} ValuesInOne(d: Data, qs: seq<Pos>, k: nat)
    requires WellFormed(d) && k < |qs| && qs[k] in d.idMap
    requires forall j :: 0 <= j < |qs| && j != k ==> qs[j] !in d.idMap
    ensures ValuesIn(d, qs) == [d.ids[d.idMap[qs[k]]].0]
    decreases |qs|
  {
    if k == 0 {
      ValuesInNone(d, qs[1..]);
    } else {
      ValuesInOne(d, qs[1..], k - 1);
    }
  }

  lemma {:induction false} ValuesInNone(d: Data, qs: seq<Pos>)
    requires WellFormed(d)
    requires forall j :: 0 <= j < |qs| ==> qs[j] !in d.idMap
    ensures ValuesIn(d, qs) == []
    decreases |qs|
  {
    if |qs| > 0 {
      ValuesInNone(d, qs[1..]);
    }
  }

  /** Two `*`s that each touch a single value: as written the first one's
      value stays in the buffer and pairs up with the second one's. */
  lemma LoneValuesAsWritten(d: Data, left: Pos, right: Pos, a: nat, b: nat)
    requires WellFormed(d) && a < b && IsGear(d, left) && IsGear(d, right)
    requires ValuesIn(d, Block(left)) == [a] && ValuesIn(d, Block(right)) == [b]
    ensures Part2AsWritten(d, [left, right]) == a * b
  {
    SortDedupOne(a);
    SortDedupTwo(a, b);
    assert [] + [a] == [a] && [a] + [b] == [a, b];
    assert [left, right][1..] == [right];
    assert GearsAsWritten(d, [right], [a]) == a * b;
  }

  /** Neither of two `*`s that each touch a single value is a gear. */
  lemma LoneValues(d: Data, left: Pos, right: Pos, a: nat, b: nat)
    requires WellFormed(d) && IsGear(d, left) && IsGear(d, right)
    requires ValuesIn(d, Block(left)) == [a] && ValuesIn(d, Block(right)) == [b]
    ensures Part2(d, [left, right]) == 0
  {
    SortDedupOne(a);
    SortDedupOne(b);
    assert [left, right][1..] == [right] && [right][1..] == [];
    Part2Cons(d, [left, right]);
    Part2Cons(d, [right]);
  }

  /** When a single cell around `p` refers to a number, `part2` sees that
      number's value alone around `p`. */
  lemma OneValueAround(d: Data, p: Pos, k: nat)
    requires WellFormed(d) && k < 9 && Block(p)[k] in d.idMap
    requires forall q :: q in d.idMap && Adjacent(p, q) ==> q == Block(p)[k]
    ensures ValuesIn(d, Block(p)) == [d.ids[d.idMap[Block(p)[k]]].0]
  {
    var b := Block(p);
    forall j | 0 <= j < 9 && j != k
      ensures b[j] !in d.idMap
    {
      assert b[j] != b[k] && Adjacent(p, b[j]);
    }
    ValuesInOne(d, b, k);
  }

  lemma LeftoverLeft(d: Data)
    requires d == Leftover
    ensures WellFormed(d) && IsGear(d, (1, 0)) && ValuesIn(d, Block((1, 0))) == [2]
  {
    assert forall q :: q in d.idMap ==> q == (0, 0) || q == (4, 0);
    OneValueAround(d, (1, 0), 1);
  }

  lemma LeftoverRight(d: Data)
    requires d == Leftover
    ensures WellFormed(d) && IsGear(d, (3, 0)) && ValuesIn(d, Block((3, 0))) == [3]
  {
    assert forall q :: q in d.idMap ==> q == (0, 0) || q == (4, 0);
    OneValueAround(d, (3, 0), 7);
  }

  /** On `2*.*3.` each `*` touches one number, so neither is a gear, yet
      `part2` as written pairs the 2 left over from the first with the 3 of
      the second. */
  lemma Part2Leftover()
    ensures Read(Text.Unlines(["2*.*3."])) == Leftover
    ensures WellFormed(Leftover)
    ensures Part2AsWritten(Leftover, [(1, 0), (3, 0)]) == 6
    ensures Part2(Leftover, [(1, 0), (3, 0)]) == 0
  {
    ReadLeftover();
    LeftoverLeft(Leftover);
    LeftoverRight(Leftover);
    LoneValuesAsWritten(Leftover, (1, 0), (3, 0), 2, 3);
    LoneValues(Leftover, (1, 0), (3, 0), 2, 3);
  }

  // ---------------------------------------------------------------------
  // The example schematic of the puzzle statement

  const SampleLines: seq<string> := [
    "467..114..",
    "...*......",
    "..35..633.",
    "......#...",
    "617*......",
    ".....+.58.",
    "..592.....",
    "......755.",
    "...$.*....",
    ".664.598.."]

  const SampleText := Text.Unlines(SampleLines)

  /** Its numbers in reading order, each with the column of the character
      that ends it; none of them ends a line. */
  const SampleNumbers: seq<Number> := [
    Number(467, 0, 3, 3), Number(114, 0, 8, 3),
    Number(35, 2, 4, 2), Number(633, 2, 9, 3),
    Number(617, 4, 3, 3),
    Number(58, 5, 9, 2),
    Number(592, 6, 5, 3),
    Number(755, 7, 9, 3),
    Number(664, 9, 4, 3), Number(598, 9, 8, 3)]

  const SampleParts: map<Pos, char> := map[(3, 1) := '*', (6, 3) := '#', (3, 4) := '*', (5, 5) := '+', (3, 8) := '$', (5, 8) := '*']

  /** The positions of its symbols, line by line. */
  const SampleSymbols: seq<Pos> := [(3, 1), (6, 3), (3, 4), (5, 5), (3, 8), (5, 8)]

  lemma {:induction false} RunEndAt(l: string, x: nat, e: nat)
    requires x <= e <= |l|
    requires forall k :: x <= k < e ==> Text.IsAsciiDigit(l[k])
    requires e < |l| ==> !Text.IsAsciiDigit(l[e])
    ensures RunEnd(l, x) == e
    decreases e - x
  {
    if x < e {
      RunEndAt(l, x + 1, e);
    }
  }

  /** The digits from column `x` up to the non-digit at column `e` are the
      next number of the line. */
  lemma NumberEndedAt(l: string, y: int, x: nat, e: nat)
    requires x < e < |l| && !Text.IsAsciiDigit(l[e])
    requires forall k :: x <= k < e ==> Text.IsAsciiDigit(l[k])
    ensures Text.AllDigits(l[x..e])
    ensures LineNumbers(l, y, x) == [Number(Text.DigitsValue(l[x..e]), y, e, e - x)] + LineNumbers(l, y, e + 1)
  {
    RunEndAt(l, x, e);
  }

  /** Columns without digits add no number. */
  lemma {:induction false} NoDigits(l: string, y: int, x: nat, e: nat)
    requires x <= e <= |l|
    requires forall k :: x <= k < e ==> !Text.IsAsciiDigit(l[k])
    ensures LineNumbers(l, y, x) == LineNumbers(l, y, e)
    decreases e - x
  {
    if x < e {
      NoDigits(l, y, x + 1, e);
    }
  }

  lemma TwoDigits(s: string)
    requires |s| == 2 && Text.AllDigits(s)
    ensures Text.DigitsValue(s) == 10 * Text.DigitValue(s[0]) + Text.DigitValue(s[1])
  {
    var head := s[..1];
    assert head[..0] == [] && head[0] == s[0];
    assert Text.DigitsValue(head) == Text.DigitValue(s[0]);
    assert s[..|s| - 1] == head;
  }

  lemma ThreeDigits(s: string)
    requires |s| == 3 && Text.AllDigits(s)
    ensures Text.DigitsValue(s) == 100 * Text.DigitValue(s[0]) + 10 * Text.DigitValue(s[1]) + Text.DigitValue(s[2])
  {
    TwoDigits(s[..2]);
  }

  /** Two digits at column `x` followed by a non-digit make a number. */
  lemma TwoDigitNumber(l: string, y: int, x: nat)
    requires x + 2 < |l| && Text.IsAsciiDigit(l[x]) && Text.IsAsciiDigit(l[x + 1]) && !Text.IsAsciiDigit(l[x + 2])
    ensures LineNumbers(l, y, x) == [Number(10 * Text.DigitValue(l[x]) + Text.DigitValue(l[x + 1]), y, x + 2, 2)] + LineNumbers(l, y, x + 3)
  {
    NumberEndedAt(l, y, x, x + 2);
    TwoDigits(l[x..x + 2]);
  }

  /** Three digits at column `x` followed by a non-digit make a number. */
  lemma ThreeDigitNumber(l: string, y: int, x: nat)
    requires x + 3 < |l| && Text.IsAsciiDigit(l[x]) && Text.IsAsciiDigit(l[x + 1]) && Text.IsAsciiDigit(l[x + 2])
    requires !Text.IsAsciiDigit(l[x + 3])
    ensures LineNumbers(l, y, x) ==
      [Number(100 * Text.DigitValue(l[x]) + 10 * Text.DigitValue(l[x + 1]) + Text.DigitValue(l[x + 2]), y, x + 3, 3)] + LineNumbers(l, y, x + 4)
  {
    NumberEndedAt(l, y, x, x + 3);
    ThreeDigits(l[x..x + 3]);
  }

  lemma SampleLine0Head(l: string)
    requires l == SampleLines[0]
    ensures LineNumbers(l, 0, 0) == [Number(467, 0, 3, 3)] + LineNumbers(l, 0, 4)
  {
    ThreeDigitNumber(l, 0, 0);
  }

  lemma SampleLine0Tail(l: string)
    requires l == SampleLines[0]
    ensures LineNumbers(l, 0, 4) == [Number(114, 0, 8, 3)]
  {
    NoDigits(l, 0, 4, 5);
    ThreeDigitNumber(l, 0, 5);
    NoDigits(l, 0, 9, 10);
  }

  lemma SampleLine0(l: string)
    requires l == SampleLines[0]
    ensures LineNumbers(l, 0, 0) == [Number(467, 0, 3, 3), Number(114, 0, 8, 3)]
    ensures LineSymbols(l, 0, 0) == map[]
  {
    SampleLine0Head(l);
    SampleLine0Tail(l);
  }

  lemma SampleLine1(l: string)
    requires l == SampleLines[1]
    ensures LineNumbers(l, 1, 0) == []
    ensures LineSymbols(l, 1, 0) == map[(3, 1) := '*']
  {
    NoDigits(l, 1, 0, 10);
  }

  lemma SampleLine2Head(l: string)
    requires l == SampleLines[2]
    ensures LineNumbers(l, 2, 0) == [Number(35, 2, 4, 2)] + LineNumbers(l, 2, 5)
  {
    NoDigits(l, 2, 0, 2);
    TwoDigitNumber(l, 2, 2);
  }

  lemma SampleLine2Tail(l: string)
    requires l == SampleLines[2]
    ensures LineNumbers(l, 2, 5) == [Number(633, 2, 9, 3)]
  {
    NoDigits(l, 2, 5, 6);
    ThreeDigitNumber(l, 2, 6);
  }

  lemma SampleLine2(l: string)
    requires l == SampleLines[2]
    ensures LineNumbers(l, 2, 0) == [Number(35, 2, 4, 2), Number(633, 2, 9, 3)]
    ensures LineSymbols(l, 2, 0) == map[]
  {
    SampleLine2Head(l);
    SampleLine2Tail(l);
  }

  lemma SampleLine3(l: string)
    requires l == SampleLines[3]
    ensures LineNumbers(l, 3, 0) == []
    ensures LineSymbols(l, 3, 0) == map[(6, 3) := '#']
  {
    NoDigits(l, 3, 0, 10);
  }

  lemma SampleLine4(l: string)
    requires l == SampleLines[4]
    ensures LineNumbers(l, 4, 0) == [Number(617, 4, 3, 3)]
    ensures LineSymbols(l, 4, 0) == map[(3, 4) := '*']
  {
    ThreeDigitNumber(l, 4, 0);
    NoDigits(l, 4, 4, 10);
  }

  lemma SampleLine5(l: string)
    requires l == SampleLines[5]
    ensures LineNumbers(l, 5, 0) == [Number(58, 5, 9, 2)]
    ensures LineSymbols(l, 5, 0) == map[(5, 5) := '+']
  {
    NoDigits(l, 5, 0, 7);
    TwoDigitNumber(l, 5, 7);
  }

  lemma SampleLine6(l: string)
    requires l == SampleLines[6]
    ensures LineNumbers(l, 6, 0) == [Number(592, 6, 5, 3)]
    ensures LineSymbols(l, 6, 0) == map[]
  {
    NoDigits(l, 6, 0, 2);
    ThreeDigitNumber(l, 6, 2);
    NoDigits(l, 6, 6, 10);
  }

  lemma SampleLine7(l: string)
    requires l == SampleLines[7]
    ensures LineNumbers(l, 7, 0) == [Number(755, 7, 9, 3)]
    ensures LineSymbols(l, 7, 0) == map[]
  {
    NoDigits(l, 7, 0, 6);
    ThreeDigitNumber(l, 7, 6);
  }

  lemma SampleLine8(l: string)
    requires l == SampleLines[8]
    ensures LineNumbers(l, 8, 0) == []
    ensures LineSymbols(l, 8, 0) == map[(3, 8) := '$', (5, 8) := '*']
  {
    NoDigits(l, 8, 0, 10);
  }

  lemma SampleLine9Head(l: string)
    requires |l| == 10 && l[0] == '.' && l[1] == '6' && l[2] == '6' && l[3] == '4' && l[4] == '.'
    ensures LineNumbers(l, 9, 0) == [Number(664, 9, 4, 3)] + LineNumbers(l, 9, 5)
  {
    NoDigits(l, 9, 0, 1);
    ThreeDigitNumber(l, 9, 1);
  }

  lemma SampleLine9Tail(l: string)
    requires l == SampleLines[9]
    ensures LineNumbers(l, 9, 5) == [Number(598, 9, 8, 3)]
  {
    ThreeDigitNumber(l, 9, 5);
    NoDigits(l, 9, 9, 10);
  }

  lemma SampleLine9(l: string)
    requires l == SampleLines[9]
    ensures LineNumbers(l, 9, 0) == [Number(664, 9, 4, 3), Number(598, 9, 8, 3)]
    ensures LineSymbols(l, 9, 0) == map[]
  {
    SampleLine9Head(l);
    SampleLine9Tail(l);
  }

  /** The numbers from line `k` on are its own followed by the later
      lines' ones. */
  lemma AllNumbersStep(ls: seq<string>, k: nat, line: seq<Number>, rest: seq<Number>)
    requires k < |ls| && LineNumbers(ls[k], k, 0) == line && AllNumbers(ls[k + 1..], k + 1) == rest
    ensures AllNumbers(ls[k..], k) == line + rest
  {
    assert ls[k..][1..] == ls[k + 1..];
  }

  lemma GridSymbolsStep(ls: seq<string>, k: nat, line: map<Pos, char>, rest: map<Pos, char>)
    requires k < |ls| && LineSymbols(ls[k], k, 0) == line && GridSymbols(ls[k + 1..], k + 1) == rest
    ensures GridSymbols(ls[k..], k) == line + rest
  {
    assert ls[k..][1..] == ls[k + 1..];
  }

  lemma GridSymbolsSkip(ls: seq<string>, k: nat, rest: map<Pos, char>)
    requires k < |ls| && LineSymbols(ls[k], k, 0) == map[] && GridSymbols(ls[k + 1..], k + 1) == rest
    ensures GridSymbols(ls[k..], k) == rest
  {
    assert ls[k..][1..] == ls[k + 1..];
  }

  /** Ten lines whose numbers are, line by line, those of the example
      hold the example's numbers. */
  lemma {:induction false} NumbersOfLines(ls: seq<string>, n: seq<Number>)
    requires |ls| == 10 && |n| == 10
    requires LineNumbers(ls[0], 0, 0) == [n[0], n[1]] && LineNumbers(ls[1], 1, 0) == []
    requires LineNumbers(ls[2], 2, 0) == [n[2], n[3]] && LineNumbers(ls[3], 3, 0) == []
    requires LineNumbers(ls[4], 4, 0) == [n[4]] && LineNumbers(ls[5], 5, 0) == [n[5]]
    requires LineNumbers(ls[6], 6, 0) == [n[6]] && LineNumbers(ls[7], 7, 0) == [n[7]]
    requires LineNumbers(ls[8], 8, 0) == [] && LineNumbers(ls[9], 9, 0) == [n[8], n[9]]
    ensures AllNumbers(ls, 0) == [n[0], n[1]] + ([n[2], n[3]] + ([n[4]] + n[5..]))
  {
    assert ls[10..] == [];
    AllNumbersStep(ls, 9, [n[8], n[9]], []);
    AllNumbersStep(ls, 8, [], [n[8], n[9]]);
    AllNumbersStep(ls, 7, [n[7]], [n[8], n[9]]);
    AllNumbersStep(ls, 6, [n[6]], [n[7], n[8], n[9]]);
    AllNumbersStep(ls, 5, [n[5]], [n[6], n[7], n[8], n[9]]);
    assert [n[5]] + [n[6], n[7], n[8], n[9]] == n[5..];
    var r4 := [n[4]] + n[5..];
    var r2 := [n[2], n[3]] + r4;
    AllNumbersStep(ls, 4, [n[4]], n[5..]);
    AllNumbersStep(ls, 3, [], r4);
    AllNumbersStep(ls, 2, [n[2], n[3]], r4);
    AllNumbersStep(ls, 1, [], r2);
    AllNumbersStep(ls, 0, [n[0], n[1]], r2);
    assert ls[0..] == ls;
  }

  lemma SampleAllNumbers(ls: seq<string>)
    requires ls == SampleLines
    ensures AllNumbers(ls, 0) == SampleNumbers
  {
    SampleLinesNumbers(ls);
    NumbersOfLines(ls, SampleNumbers);
    SampleNumbersSplit();
  }

  lemma SampleLinesNumbers(ls: seq<string>)
    requires ls == SampleLines
    ensures var n := SampleNumbers;
      LineNumbers(ls[0], 0, 0) == [n[0], n[1]] && LineNumbers(ls[1], 1, 0) == [] &&
      LineNumbers(ls[2], 2, 0) == [n[2], n[3]] && LineNumbers(ls[3], 3, 0) == [] &&
      LineNumbers(ls[4], 4, 0) == [n[4]] && LineNumbers(ls[5], 5, 0) == [n[5]] &&
      LineNumbers(ls[6], 6, 0) == [n[6]] && LineNumbers(ls[7], 7, 0) == [n[7]] &&
      LineNumbers(ls[8], 8, 0) == [] && LineNumbers(ls[9], 9, 0) == [n[8], n[9]]
  {
    SampleLine0(ls[0]);
    SampleLine1(ls[1]);
    SampleLine2(ls[2]);
    SampleLine3(ls[3]);
    SampleLine4(ls[4]);
    SampleLine5(ls[5]);
    SampleLine6(ls[6]);
    SampleLine7(ls[7]);
    SampleLine8(ls[8]);
    SampleLine9(ls[9]);
  }

  lemma SampleNumbersSplit()
    ensures var n := SampleNumbers; [n[0], n[1]] + ([n[2], n[3]] + ([n[4]] + n[5..])) == n
  {
    var n := SampleNumbers;
    var t := [n[0], n[1]] + ([n[2], n[3]] + ([n[4]] + n[5..]));
    assert |t| == |n|;
    forall i | 0 <= i < |n|
      ensures t[i] == n[i]
    {
    }
  }

  /** Ten lines with symbols, line by line, where the example has them
      hold the example's symbols. */
  lemma {:induction false} SymbolsOfLines(ls: seq<string>, m1: map<Pos, char>, m3: map<Pos, char>, m4: map<Pos, char>, m5: map<Pos, char>, m8: map<Pos, char>)
    requires |ls| == 10
    requires LineSymbols(ls[0], 0, 0) == map[] && LineSymbols(ls[1], 1, 0) == m1
    requires LineSymbols(ls[2], 2, 0) == map[] && LineSymbols(ls[3], 3, 0) == m3
    requires LineSymbols(ls[4], 4, 0) == m4 && LineSymbols(ls[5], 5, 0) == m5
    requires LineSymbols(ls[6], 6, 0) == map[] && LineSymbols(ls[7], 7, 0) == map[]
    requires LineSymbols(ls[8], 8, 0) == m8 && LineSymbols(ls[9], 9, 0) == map[]
    ensures GridSymbols(ls, 0) == m1 + (m3 + (m4 + (m5 + (m8 + map[]))))
  {
    assert ls[10..] == [];
    var g8 := m8 + map[];
    var g5 := m5 + g8;
    var g4 := m4 + g5;
    var g3 := m3 + g4;
    GridSymbolsSkip(ls, 9, map[]);
    GridSymbolsStep(ls, 8, m8, map[]);
    GridSymbolsSkip(ls, 7, g8);
    GridSymbolsSkip(ls, 6, g8);
    GridSymbolsStep(ls, 5, m5, g8);
    GridSymbolsStep(ls, 4, m4, g5);
    GridSymbolsStep(ls, 3, m3, g4);
    GridSymbolsSkip(ls, 2, g3);
    GridSymbolsStep(ls, 1, m1, g3);
    GridSymbolsSkip(ls, 0, m1 + g3);
    assert ls[0..] == ls;
  }

  lemma SampleLinesSymbols(ls: seq<string>)
    requires ls == SampleLines
    ensures LineSymbols(ls[0], 0, 0) == map[] && LineSymbols(ls[1], 1, 0) == map[(3, 1) := '*']
    ensures LineSymbols(ls[2], 2, 0) == map[] && LineSymbols(ls[3], 3, 0) == map[(6, 3) := '#']
    ensures LineSymbols(ls[4], 4, 0) == map[(3, 4) := '*'] && LineSymbols(ls[5], 5, 0) == map[(5, 5) := '+']
    ensures LineSymbols(ls[6], 6, 0) == map[] && LineSymbols(ls[7], 7, 0) == map[]
    ensures LineSymbols(ls[8], 8, 0) == map[(3, 8) := '$', (5, 8) := '*'] && LineSymbols(ls[9], 9, 0) == map[]
  {
    SampleLine0(ls[0]);
    SampleLine1(ls[1]);
    SampleLine2(ls[2]);
    SampleLine3(ls[3]);
    SampleLine4(ls[4]);
    SampleLine5(ls[5]);
    SampleLine6(ls[6]);
    SampleLine7(ls[7]);
    SampleLine8(ls[8]);
    SampleLine9(ls[9]);
  }

  lemma SampleGrid(ls: seq<string>)
    requires ls == SampleLines
    ensures GridSymbols(ls, 0) == SampleParts
  {
    SampleLinesSymbols(ls);
    SymbolsOfLines(ls, map[(3, 1) := '*'], map[(6, 3) := '#'], map[(3, 4) := '*'], map[(5, 5) := '+'], map[(3, 8) := '$', (5, 8) := '*']);
    SamplePartsSplit();
  }

  lemma SamplePartsSplit()
    ensures map[(3, 1) := '*'] + (map[(6, 3) := '#'] + (map[(3, 4) := '*'] + (map[(5, 5) := '+'] + (map[(3, 8) := '$', (5, 8) := '*'] + map[])))) == SampleParts
  {
    var m := map[(3, 1) := '*'] + (map[(6, 3) := '#'] + (map[(3, 4) := '*'] + (map[(5, 5) := '+'] + (map[(3, 8) := '$', (5, 8) := '*'] + map[]))));
    assert m.Keys == SampleParts.Keys;
    forall p | p in m
      ensures m[p] == SampleParts[p]
    {
      assert p in {(3, 1), (6, 3), (3, 4), (5, 5), (3, 8), (5, 8)};
    }
  }

  /** `Data::from_str` on the example: its ten numbers, with their cells,
      and its six symbols. */
  lemma SampleRead()
    ensures Text.Lines(SampleText) == SampleLines
    ensures AllNumbers(SampleLines, 0) == SampleNumbers
    ensures Describes(Read(SampleText), SampleLines, SampleNumbers)
    ensures Read(SampleText).parts == SampleParts
  {
    SampleTextLines();
    SampleAllNumbers(SampleLines);
    SampleGrid(SampleLines);
    ReadDescribes(SampleText);
    ReadPartsGrid(SampleText);
  }

  lemma SampleTextLines()
    ensures Text.Lines(SampleText) == SampleLines
  {
    Text.LinesUnlines(SampleLines);
  }

  lemma SampleSymbolOf(p: Pos)
    ensures SymbolOf(SampleLines, 0, p) <==> p in SampleSymbols
  {
    SampleGrid(SampleLines);
    GridSymbolsSpec(SampleLines, 0, p);
  }

  /** Some position of `ps` is near `n`. */
  predicate NearAny(n: Number, ps: seq<Pos>)
    decreases |ps|
  {
    |ps| > 0 && (Near(n, ps[0]) || NearAny(n, ps[1..]))
  }

  lemma {:induction false} NearAnySpec(n: Number, ps: seq<Pos>)
    ensures NearAny(n, ps) <==> exists p :: p in ps && Near(n, p)
    decreases |ps|
  {
    if |ps| > 0 {
      NearAnySpec(n, ps[1..]);
      assert forall p :: p in ps <==> p == ps[0] || p in ps[1..];
    }
  }

  /** When the symbols of `ls` are at the positions `syms`, a number is a
      part number exactly when one of them is near it. */
  lemma PartNumberNear(ls: seq<string>, syms: seq<Pos>, n: Number)
    requires n.len > 0
    requires forall p :: SymbolOf(ls, 0, p) <==> p in syms
    ensures IsPartNumber(ls, n) <==> NearAny(n, syms)
  {
    NearAnySpec(n, syms);
    if IsPartNumber(ls, n) {
      var p, q :| SymbolOf(ls, 0, p) && InCells(q, n) && Adjacent(p, q);
      assert Touches(n, p);
      TouchesNear(n, p);
    }
    if NearAny(n, syms) {
      var p :| p in syms && Near(n, p);
      TouchesNear(n, p);
      var q :| InCells(q, n) && Adjacent(p, q);
      assert SymbolOf(ls, 0, p);
    }
  }

  /** The value of each number that some position of `syms` is near, and 0
      for the others. */
  function NearParts(syms: seq<Pos>, nums: seq<Number>): (r: seq<int>)
    ensures |r| == |nums|
    ensures forall i :: 0 <= i < |nums| ==> r[i] == if NearAny(nums[i], syms) then nums[i].value else 0
  {
    if |nums| == 0 then []
    else [if NearAny(nums[0], syms) then nums[0].value else 0] + NearParts(syms, nums[1..])
  }

  lemma PartValuesNear(ls: seq<string>, syms: seq<Pos>, nums: seq<Number>)
    requires forall i :: 0 <= i < |nums| ==> nums[i].len > 0
    requires forall p :: SymbolOf(ls, 0, p) <==> p in syms
    ensures Seqs.Image(n => PartValue(ls, n), nums) == NearParts(syms, nums)
  {
    forall i | 0 <= i < |nums|
      ensures PartValue(ls, nums[i]) == NearParts(syms, nums)[i]
    {
      PartNumberNear(ls, syms, nums[i]);
    }
  }

  lemma SampleSymbolsOf()
    ensures forall p :: SymbolOf(SampleLines, 0, p) <==> p in SampleSymbols
  {
    forall p
      ensures SymbolOf(SampleLines, 0, p) <==> p in SampleSymbols
    {
      SampleSymbolOf(p);
    }
  }

  lemma SampleNumbersLong()
    ensures forall i :: 0 <= i < |SampleNumbers| ==> SampleNumbers[i].len > 0
  {
  }

  /** Every number of the example but 114 and 58 has a symbol near it. */
  lemma SampleNearParts()
    ensures Seqs.Sum(NearParts(SampleSymbols, SampleNumbers)) == 4361
  {
    var values := [467, 0, 35, 633, 617, 0, 592, 755, 664, 598];
    SampleNearValues(SampleSymbols, SampleNumbers, values);
    SampleValuesSum(values);
  }

  lemma SampleNearValues(syms: seq<Pos>, nums: seq<Number>, values: seq<int>)
    requires syms == SampleSymbols && nums == SampleNumbers
    requires values == [467, 0, 35, 633, 617, 0, 592, 755, 664, 598]
    ensures NearParts(syms, nums) == values
  {
    SampleNearAt(syms, nums);
    TenEqual(NearParts(syms, nums), values);
  }

  lemma SampleNearAt(syms: seq<Pos>, nums: seq<Number>)
    requires syms == SampleSymbols && nums == SampleNumbers
    ensures var r := NearParts(syms, nums);
      |r| == 10 && r[0] == 467 && r[1] == 0 && r[2] == 35 && r[3] == 633 && r[4] == 617 &&
      r[5] == 0 && r[6] == 592 && r[7] == 755 && r[8] == 664 && r[9] == 598
  {
    SampleNear(syms, nums);
  }

  /** Two sequences of ten that agree at every index are equal. */
  lemma TenEqual(r: seq<int>, values: seq<int>)
    requires |r| == 10 && |values| == 10
    requires r[0] == values[0] && r[1] == values[1] && r[2] == values[2] && r[3] == values[3] && r[4] == values[4]
    requires r[5] == values[5] && r[6] == values[6] && r[7] == values[7] && r[8] == values[8] && r[9] == values[9]
    ensures r == values
  {
    forall i | 0 <= i < 10
      ensures r[i] == values[i]
    {
      assert i in {0, 1, 2, 3, 4, 5, 6, 7, 8, 9};
    }
  }

  lemma SampleValuesSum(values: seq<int>)
    requires values == [467, 0, 35, 633, 617, 0, 592, 755, 664, 598]
    ensures Seqs.Sum(values) == 4361
  {
    assert Seqs.Sum(values[9..]) == 598;
    assert Seqs.Sum(values[8..]) == 1262;
    assert Seqs.Sum(values[7..]) == 2017;
    assert Seqs.Sum(values[6..]) == 2609;
    assert Seqs.Sum(values[5..]) == 2609;
    assert Seqs.Sum(values[4..]) == 3226;
    assert Seqs.Sum(values[3..]) == 3859;
    assert Seqs.Sum(values[2..]) == 3894;
    assert Seqs.Sum(values[1..]) == 3894;
  }

  lemma SampleNear(syms: seq<Pos>, nums: seq<Number>)
    requires syms == SampleSymbols && nums == SampleNumbers
    ensures NearAny(nums[0], syms) && !NearAny(nums[1], syms) && NearAny(nums[2], syms) && NearAny(nums[3], syms)
    ensures NearAny(nums[4], syms) && !NearAny(nums[5], syms) && NearAny(nums[6], syms) && NearAny(nums[7], syms)
    ensures NearAny(nums[8], syms) && NearAny(nums[9], syms)
  {
  }

  lemma SamplePartValues(ls: seq<string>)
    requires ls == SampleLines
    ensures Seqs.Sum(Seqs.Image(n => PartValue(ls, n), SampleNumbers)) == 4361
  {
    SampleSymbolsOf();
    SampleNumbersLong();
    PartValuesNear(ls, SampleSymbols, SampleNumbers);
    SampleNearParts();
  }

  /** `part1` on the example gives 4361, in whatever order the map hands out
      the symbols. */
  lemma SamplePart1(order: seq<Pos>)
    requires forall p :: p in order <==> p in SampleSymbols
    ensures WellFormed(Read(SampleText))
    ensures Part1(Read(SampleText), order) == 4361
  {
    var ls := SampleLines;
    SampleRead();
    SamplePartsKeys();
    Part1Described(Read(SampleText), ls, SampleNumbers, order);
    SamplePartValues(ls);
  }

  // ---------------------------------------------------------------------
  // Part 2 on the example

  /** The values of the numbers near `p`. */
  function NearValues(nums: seq<Number>, p: Pos): set<nat>
    decreases |nums|
  {
    if |nums| == 0 then {}
    else (if Near(nums[0], p) then {nums[0].value} else {}) + NearValues(nums[1..], p)
  }

  lemma {:induction false} NearValuesSpec(nums: seq<Number>, p: Pos, v: nat)
    ensures v in NearValues(nums, p) <==> exists i :: 0 <= i < |nums| && Near(nums[i], p) && nums[i].value == v
    decreases |nums|
  {
    if |nums| > 0 {
      var t := nums[1..];
      NearValuesSpec(t, p, v);
      if exists i :: 0 <= i < |t| && Near(t[i], p) && t[i].value == v {
        var i :| 0 <= i < |t| && Near(t[i], p) && t[i].value == v;
        assert nums[i + 1] == t[i];
      }
      if exists i :: 0 <= i < |nums| && Near(nums[i], p) && nums[i].value == v {
        var i :| 0 <= i < |nums| && Near(nums[i], p) && nums[i].value == v;
        if i > 0 {
          assert t[i - 1] == nums[i];
        }
      }
    }
  }

  /** For numbers with at least one digit, the values that touch `p` are
      the values near it. */
  lemma {:induction false} TouchingNearValues(nums: seq<Number>, p: Pos)
    requires forall i :: 0 <= i < |nums| ==> nums[i].len > 0
    ensures TouchingValues(nums, p) == NearValues(nums, p)
    decreases |nums|
  {
    if |nums| > 0 {
      var t := nums[1..];
      TouchingNearValues(t, p);
      TouchesNear(nums[0], p);
      forall v
        ensures v in TouchingValues(nums, p) <==> v in TouchingValues(t, p) || (Touches(nums[0], p) && v == nums[0].value)
      {
        if v in TouchingValues(nums, p) {
          var i :| 0 <= i < |nums| && Touches(nums[i], p) && nums[i].value == v;
          if i > 0 {
            assert t[i - 1] == nums[i];
          }
        }
        if v in TouchingValues(t, p) {
          var i :| 0 <= i < |t| && Touches(t[i], p) && t[i].value == v;
          assert nums[i + 1] == t[i];
        }
      }
    }
  }

  /** Two distinct values make a gear worth their product. */
  lemma GearRulePair(a: nat, b: nat)
    requires a < b
    ensures GearRule({a, b}) == a * b
  {
    PairRule([a, b], {a, b});
  }

  /** A single value makes a gear worth nothing. */
  lemma GearRuleOne(v: nat)
    ensures GearRule({v}) == 0
  {
  }

  lemma SampleGearsNear(nums: seq<Number>)
    requires nums == SampleNumbers
    ensures NearValues(nums, (3, 1)) == {35, 467}
    ensures NearValues(nums, (3, 4)) == {617}
    ensures NearValues(nums, (5, 8)) == {598, 755}
  {
    SampleNearFirst(nums);
    SampleNearLone(nums);
    SampleNearLast(nums);
  }

  lemma SampleNearFirst(nums: seq<Number>)
    requires nums == SampleNumbers
    ensures NearValues(nums, (3, 1)) == {35, 467}
  {
    var p := (3, 1);
    forall v
      ensures v in NearValues(nums, p) <==> v == 35 || v == 467
    {
      NearValuesSpec(nums, p, v);
      if v in NearValues(nums, p) {
        var i :| 0 <= i < |nums| && Near(nums[i], p) && nums[i].value == v;
        assert i == 0 || i == 2 by {
          assert i in {0, 1, 2, 3, 4, 5, 6, 7, 8, 9};
        }
      }
      assert Near(nums[0], p) && Near(nums[2], p);
    }
  }

  lemma SampleNearLone(nums: seq<Number>)
    requires nums == SampleNumbers
    ensures NearValues(nums, (3, 4)) == {617}
  {
    var p := (3, 4);
    forall v
      ensures v in NearValues(nums, p) <==> v == 617
    {
      NearValuesSpec(nums, p, v);
      if v in NearValues(nums, p) {
        var i :| 0 <= i < |nums| && Near(nums[i], p) && nums[i].value == v;
        assert i == 4 by {
          assert i in {0, 1, 2, 3, 4, 5, 6, 7, 8, 9};
        }
      }
      assert Near(nums[4], p);
    }
  }

  lemma SampleNearLast(nums: seq<Number>)
    requires nums == SampleNumbers
    ensures NearValues(nums, (5, 8)) == {598, 755}
  {
    var p := (5, 8);
    forall v
      ensures v in NearValues(nums, p) <==> v == 598 || v == 755
    {
      NearValuesSpec(nums, p, v);
      if v in NearValues(nums, p) {
        var i :| 0 <= i < |nums| && Near(nums[i], p) && nums[i].value == v;
        assert i == 7 || i == 9 by {
          assert i in {0, 1, 2, 3, 4, 5, 6, 7, 8, 9};
        }
      }
      assert Near(nums[7], p) && Near(nums[9], p);
    }
  }

  /** Of the six symbols of the example, the first, third and last are
      `*`s. */
  lemma SampleGearsIn(ls: seq<string>, syms: seq<Pos>)
    requires ls == SampleLines && syms == SampleSymbols
    ensures GearIn(ls, syms[0]) && !GearIn(ls, syms[1]) && GearIn(ls, syms[2])
    ensures !GearIn(ls, syms[3]) && !GearIn(ls, syms[4]) && GearIn(ls, syms[5])
  {
  }

  /** By the rule for gears, the example's `*`s are worth 16345, 0 (only
      617 touches it) and 451490. */
  lemma SampleRuleGear(ls: seq<string>, nums: seq<Number>, syms: seq<Pos>)
    requires ls == SampleLines && nums == SampleNumbers && syms == SampleSymbols
    ensures RuleGear(ls, nums, syms[0]) == 16345 && RuleGear(ls, nums, syms[1]) == 0
    ensures RuleGear(ls, nums, syms[2]) == 0 && RuleGear(ls, nums, syms[3]) == 0
    ensures RuleGear(ls, nums, syms[4]) == 0 && RuleGear(ls, nums, syms[5]) == 451490
  {
    SampleGearsIn(ls, syms);
    SampleNumbersLong();
    SampleGearsNear(nums);
    TouchingNearValues(nums, syms[0]);
    TouchingNearValues(nums, syms[2]);
    TouchingNearValues(nums, syms[5]);
    GearRulePair(35, 467);
    GearRuleOne(617);
    GearRulePair(598, 755);
  }

  lemma SampleRuleGears(ls: seq<string>, nums: seq<Number>, syms: seq<Pos>)
    requires ls == SampleLines && nums == SampleNumbers && syms == SampleSymbols
    ensures RuleGears(ls, nums, syms) == 467835
  {
    SampleRuleGear(ls, nums, syms);
    assert RuleGears(ls, nums, syms[5..]) == 451490;
    assert RuleGears(ls, nums, syms[4..]) == 451490;
    assert RuleGears(ls, nums, syms[3..]) == 451490;
    assert RuleGears(ls, nums, syms[2..]) == 451490;
    assert RuleGears(ls, nums, syms[1..]) == 451490;
  }

  /** `part2`, corrected to empty the buffer at every `*`, gives 467835 on
      the example, in whatever order the map hands out the symbols. */
  lemma SamplePart2(order: seq<Pos>)
    requires multiset(order) == multiset(SampleSymbols)
    ensures WellFormed(Read(SampleText))
    ensures Part2(Read(SampleText), order) == 467835
  {
    var d := Read(SampleText);
    SampleRead();
    Part2Described(d, SampleLines, SampleNumbers, SampleSymbols);
    Part2OrderFree(d, order, SampleSymbols);
    SampleRuleGears(SampleLines, SampleNumbers, SampleSymbols);
  }

  // ---------------------------------------------------------------------
  // Part 2 as written, on the example

  /** `p` holds a `*`, and the distinct values around it are `s`. */
  predicate Sees(d: Data, p: Pos, s: set<nat>) {
    WellFormed(d) && IsGear(d, p) && Values(ValuesIn(d, Block(p))) == s
  }

  /** A `*` with two distinct values, met with an empty buffer, adds their
      product and leaves the buffer empty. */
  lemma DrainStep(d: Data, order: seq<Pos>, s: set<nat>)
    requires |order| > 0 && Sees(d, order[0], s) && |s| == 2
    ensures GearsAsWritten(d, order, []) == GearRule(s) + GearsAsWritten(d, order[1..], [])
  {
    GearAsWritten(d, order, []);
    assert Values([]) == {};
  }

  /** A `*` that does not bring the buffer to exactly two distinct values
      adds nothing and leaves them all in the buffer. */
  lemma KeepStep(d: Data, order: seq<Pos>, buf: seq<nat>, s: set<nat>) returns (u: seq<nat>)
    requires |order| > 0 && Sees(d, order[0], s) && |Values(buf) + s| != 2
    ensures Values(u) == Values(buf) + s
    ensures GearsAsWritten(d, order, buf) == GearsAsWritten(d, order[1..], u)
  {
    u := SortDedup(buf + ValuesIn(d, Block(order[0])));
    GearAsWritten(d, order, buf);
  }

  /** Three `*`s, the last with a single value: both pairs are counted. */
  lemma LoneLast(d: Data, g: seq<Pos>, s0: set<nat>, s1: set<nat>, s2: set<nat>)
    requires |g| == 3 && Sees(d, g[0], s0) && Sees(d, g[1], s1) && Sees(d, g[2], s2)
    requires |s0| == 2 && |s1| == 2 && |s2| == 1
    ensures GearsAsWritten(d, g, []) == GearRule(s0) + GearRule(s1)
  {
    DrainStep(d, g, s0);
    DrainStep(d, g[1..], s1);
    assert Values([]) == {};
    var u := KeepStep(d, g[2..], [], s2);
  }

  /** Three `*`s, the middle one with a single value that the last does not
      share: the single value stays in the buffer and spoils the last
      pair. */
  lemma LoneMiddle(d: Data, g: seq<Pos>, s0: set<nat>, s1: set<nat>, s2: set<nat>)
    requires |g| == 3 && Sees(d, g[0], s0) && Sees(d, g[1], s1) && Sees(d, g[2], s2)
    requires |s0| == 2 && |s1| == 1 && |s2| == 2 && s1 !! s2
    ensures GearsAsWritten(d, g, []) == GearRule(s0)
  {
    DrainStep(d, g, s0);
    assert Values([]) == {};
    var u := KeepStep(d, g[1..], [], s1);
    var w := KeepStep(d, g[2..], u, s2);
  }

  /** Three `*`s, the first with a single value that the others do not
      share: nothing is ever drained, and the sum is 0. */
  lemma LoneFirst(d: Data, g: seq<Pos>, s0: set<nat>, s1: set<nat>, s2: set<nat>)
    requires |g| == 3 && Sees(d, g[0], s0) && Sees(d, g[1], s1) && Sees(d, g[2], s2)
    requires |s0| == 1 && |s1| == 2 && |s2| == 2 && s0 !! s1 && (s0 + s1) !! s2
    ensures GearsAsWritten(d, g, []) == 0
  {
    assert Values([]) == {};
    var u := KeepStep(d, g, [], s0);
    var w := KeepStep(d, g[1..], u, s1);
    var z := KeepStep(d, g[2..], w, s2);
  }

  lemma SamplePartsKeys()
    ensures forall p :: p in SampleParts <==> p in SampleSymbols
  {
  }

  /** Around a `*` of a schematic, `part2` as written sees the values
      near it. */
  lemma SeesNear(d: Data, ls: seq<string>, nums: seq<Number>, p: Pos, s: set<nat>)
    requires Describes(d, ls, nums) && IsGear(d, p)
    requires forall i :: 0 <= i < |nums| ==> nums[i].len > 0
    requires NearValues(nums, p) == s
    ensures Sees(d, p, s)
  {
    ValuesAround(d, ls, nums, p);
    TouchingNearValues(nums, p);
  }

  /** What `part2` as written sees around the three `*`s of the example. */
  lemma SampleSees(d: Data)
    requires Describes(d, SampleLines, SampleNumbers) && d.parts == SampleParts
    ensures Sees(d, (3, 1), {35, 467}) && Sees(d, (3, 4), {617}) && Sees(d, (5, 8), {598, 755})
  {
    SampleNumbersLong();
    SampleGearsNear(SampleNumbers);
    SampleIsGear(d, SampleSymbols);
    SeesThree(d, SampleLines, SampleNumbers, (3, 1), (3, 4), (5, 8), {35, 467}, {617}, {598, 755});
  }

  lemma SeesThree(d: Data, ls: seq<string>, nums: seq<Number>, a: Pos, b: Pos, c: Pos, sa: set<nat>, sb: set<nat>, sc: set<nat>)
    requires Describes(d, ls, nums) && IsGear(d, a) && IsGear(d, b) && IsGear(d, c)
    requires forall i :: 0 <= i < |nums| ==> nums[i].len > 0
    requires NearValues(nums, a) == sa && NearValues(nums, b) == sb && NearValues(nums, c) == sc
    ensures Sees(d, a, sa) && Sees(d, b, sb) && Sees(d, c, sc)
  {
    SeesNear(d, ls, nums, a, sa);
    SeesNear(d, ls, nums, b, sb);
    SeesNear(d, ls, nums, c, sc);
  }

  /** Reordering the symbols reorders the gears among them. */
  lemma GearsInPermuted(d: Data, order: seq<Pos>, order': seq<Pos>)
    requires multiset(order) == multiset(order')
    ensures multiset(GearsIn(d, order)) == multiset(GearsIn(d, order'))
  {
    forall p
      ensures multiset(GearsIn(d, order))[p] == multiset(GearsIn(d, order'))[p]
    {
      GearsInCount(d, order, p);
      GearsInCount(d, order', p);
    }
  }

  /** Of the six symbols of the example, the first, third and last are
      `*`s. */
  lemma SampleIsGear(d: Data, syms: seq<Pos>)
    requires d.parts == SampleParts && syms == SampleSymbols
    ensures |syms| == 6 && IsGear(d, syms[0]) && !IsGear(d, syms[1]) && IsGear(d, syms[2])
    ensures !IsGear(d, syms[3]) && !IsGear(d, syms[4]) && IsGear(d, syms[5])
  {
  }

  lemma GearsInSix(d: Data, syms: seq<Pos>)
    requires |syms| == 6 && IsGear(d, syms[0]) && !IsGear(d, syms[1]) && IsGear(d, syms[2])
    requires !IsGear(d, syms[3]) && !IsGear(d, syms[4]) && IsGear(d, syms[5])
    ensures GearsIn(d, syms) == [syms[0], syms[2], syms[5]]
  {
    assert syms[5..][1..] == [];
    assert GearsIn(d, syms[5..]) == [syms[5]];
    assert syms[4..][1..] == syms[5..] && syms[4..][0] == syms[4];
    assert GearsIn(d, syms[4..]) == [syms[5]];
    assert syms[3..][1..] == syms[4..] && syms[3..][0] == syms[3];
    assert GearsIn(d, syms[3..]) == [syms[5]];
    assert syms[2..][1..] == syms[3..] && syms[2..][0] == syms[2];
    assert GearsIn(d, syms[2..]) == [syms[2], syms[5]];
    assert syms[1..][1..] == syms[2..] && syms[1..][0] == syms[1];
    assert GearsIn(d, syms[1..]) == [syms[2], syms[5]];
  }

  lemma SampleGearsInSymbols(d: Data)
    requires d.parts == SampleParts
    ensures GearsIn(d, SampleSymbols) == [(3, 1), (3, 4), (5, 8)]
  {
    SampleIsGear(d, SampleSymbols);
    GearsInSix(d, SampleSymbols);
  }

  /** A sequence holding each of three distinct values once is one of their
      six arrangements. */
  lemma ThreeArranged(g: seq<Pos>, a: Pos, b: Pos, c: Pos)
    requires a != b && b != c && a != c
    requires multiset(g) == multiset([a, b, c])
    ensures |g| == 3
    ensures g in {[a, b, c], [a, c, b], [b, a, c], [b, c, a], [c, a, b], [c, b, a]}
  {
    assert |g| == |multiset(g)| == 3;
    assert g[0] in multiset(g) && g[1] in multiset(g) && g[2] in multiset(g);
    assert g == [g[0], g[1], g[2]];
    assert multiset(g) == multiset{g[0], g[1], g[2]};
  }

  /** Three gears, `b` with a single value that the pairs `a` and `c` do
      not share: as written, the sum depends on where `b` comes. */
  lemma ArrangedAsWritten(d: Data, g: seq<Pos>, a: Pos, b: Pos, c: Pos, sa: set<nat>, sb: set<nat>, sc: set<nat>)
    requires a != b && b != c && a != c
    requires multiset(g) == multiset([a, b, c])
    requires Sees(d, a, sa) && Sees(d, b, sb) && Sees(d, c, sc)
    requires |sa| == 2 && |sb| == 1 && |sc| == 2 && sa !! sb && sb !! sc && sa !! sc
    ensures |g| == 3
    ensures GearsAsWritten(d, g, []) ==
      if g[2] == b then GearRule(sa) + GearRule(sc)
      else if g[1] == b then (if g[0] == a then GearRule(sa) else GearRule(sc))
      else 0
  {
    ThreeArranged(g, a, b, c);
    if g == [a, c, b] {
      LoneLast(d, g, sa, sc, sb);
    } else if g == [c, a, b] {
      LoneLast(d, g, sc, sa, sb);
    } else if g == [a, b, c] {
      LoneMiddle(d, g, sa, sb, sc);
    } else if g == [c, b, a] {
      LoneMiddle(d, g, sc, sb, sa);
    } else if g == [b, a, c] {
      LoneFirst(d, g, sb, sa, sc);
    } else {
      LoneFirst(d, g, sb, sc, sa);
    }
  }

  /** `part2` as written on the example depends on the order the map hands
      out the symbols in: it gives 467835 only when the `*` that touches
      617 alone comes after both true gears; when it comes between them,
      the first gear's ratio alone survives, and when it comes first the
      sum is 0. */
  lemma SampleAsWritten(order: seq<Pos>)
    requires multiset(order) == multiset(SampleSymbols)
    ensures WellFormed(Read(SampleText))
    ensures multiset(GearsIn(Read(SampleText), order)) == multiset([(3, 1), (3, 4), (5, 8)])
    ensures |GearsIn(Read(SampleText), order)| == 3
    ensures var g := GearsIn(Read(SampleText), order);
      Part2AsWritten(Read(SampleText), order) ==
        if g[2] == (3, 4) then 467835
        else if g[1] == (3, 4) then (if g[0] == (3, 1) then 16345 else 451490)
        else 0
  {
    SampleRead();
    SampleDataAsWritten(Read(SampleText), order);
  }

  lemma SampleDataAsWritten(d: Data, order: seq<Pos>)
    requires Describes(d, SampleLines, SampleNumbers) && d.parts == SampleParts
    requires multiset(order) == multiset(SampleSymbols)
    ensures WellFormed(d)
    ensures multiset(GearsIn(d, order)) == multiset([(3, 1), (3, 4), (5, 8)])
    ensures |GearsIn(d, order)| == 3
    ensures var g := GearsIn(d, order);
      Part2AsWritten(d, order) ==
        if g[2] == (3, 4) then 467835
        else if g[1] == (3, 4) then (if g[0] == (3, 1) then 16345 else 451490)
        else 0
  {
    HeldWellFormed(d, SampleNumbers);
    SampleGearsInSymbols(d);
    GearsInPermuted(d, order, SampleSymbols);
    var g := GearsIn(d, order);
    AsWrittenSkips(d, order, []);
    SampleSees(d);
    SampleArranged(d, g);
  }

  lemma SampleSets(sa: set<nat>, sb: set<nat>, sc: set<nat>)
    requires sa == {35, 467} && sb == {617} && sc == {598, 755}
    ensures |sa| == 2 && |sb| == 1 && |sc| == 2 && sa !! sb && sb !! sc && sa !! sc
  {
  }

  /** The example's three gears, in any arrangement, run through `part2`
      as written. */
  lemma SampleArranged(d: Data, g: seq<Pos>)
    requires Sees(d, (3, 1), {35, 467}) && Sees(d, (3, 4), {617}) && Sees(d, (5, 8), {598, 755})
    requires multiset(g) == multiset([(3, 1), (3, 4), (5, 8)])
    ensures |g| == 3
    ensures GearsAsWritten(d, g, []) ==
      if g[2] == (3, 4) then 467835
      else if g[1] == (3, 4) then (if g[0] == (3, 1) then 16345 else 451490)
      else 0
  {
    var sa, sb, sc: set<nat> := {35, 467}, {617}, {598, 755};
    SampleSets(sa, sb, sc);
    GearRulePair(35, 467);
    GearRulePair(598, 755);
    ArrangedAsWritten(d, g, (3, 1), (3, 4), (5, 8), sa, sb, sc);
  }

  /** In reading order, the order in which the symbols appear in the
      schematic, `part2` as written gives 16345 for the example rather than
      467835. */
  lemma SampleAsWrittenReadingOrder()
    ensures WellFormed(Read(SampleText))
    ensures Part2AsWritten(Read(SampleText), SampleSymbols) == 16345
    ensures Part2(Read(SampleText), SampleSymbols) == 467835
  {
    SampleRead();
    SampleGearsInSymbols(Read(SampleText));
    SampleAsWritten(SampleSymbols);
    SamplePart2(SampleSymbols);
  }
}
