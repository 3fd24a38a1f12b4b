/** Day 5: seed numbers are translated through a chain of almanac maps
    (seed to soil, soil to fertilizer, ..., humidity to location).  Each map
    is a list of `(destination start, source start, length)` intervals;
    numbers no interval covers map to themselves.  Part 1 translates single
    seeds, part 2 translates whole seed ranges by splitting them into pieces
    that each lie inside one interval or in a gap between intervals. */
module Day05 {
  import opened Wrappers
  import Text
  import Seqs

  datatype MapInterval = MapInterval(len: nat, srcStart: nat, destStart: nat)

  datatype AMap = AMap(ranges: seq<MapInterval>)

  /** A range of numbers `start .. start + len - 1`, as `(start, len)`. */
  type Range = (nat, nat)

  /** The almanac after its `X-to-Y map:` headers have been resolved: the
      seeds and the maps in the order a seed is translated through them. */
  datatype Almanac = Almanac(seeds: seq<nat>, chain: seq<AMap>)

  // ---------------------------------------------------------------------
  // Parsing

  /** `MapInterval::from_str`: exactly three whitespace-separated numbers,
      destination start first, then source start, then length.  Any other
      number of tokens is a parse error; a token that is not a number makes
      the subsequent `unwrap` panic. */
  function ParseInterval(line: string): (r: Result<MapInterval>)
    ensures var ts := Text.SplitWhitespace(line);
      && (r == Err(ParseError("incorrect range")) <==> |ts| != 3)
      && (r.Ok? <==> |ts| == 3 && Text.ParseNat(ts[0]).Some? && Text.ParseNat(ts[1]).Some?
                      && Text.ParseNat(ts[2]).Some?)
      && (r.Ok? ==> r.value == MapInterval(Text.ParseNat(ts[2]).value, Text.ParseNat(ts[1]).value,
                                            Text.ParseNat(ts[0]).value))
  {
    var ts := Text.SplitWhitespace(line);
    if |ts| != 3 then Err(ParseError("incorrect range"))
    else
      match (Text.ParseNat(ts[0]), Text.ParseNat(ts[1]), Text.ParseNat(ts[2]))
      case (Some(dest), Some(src), Some(len)) => Ok(MapInterval(len, src, dest))
      case _ => Err(Panic(UnwrapErr))
  }

  /** An interval as it is written in the almanac. */
  function ShowInterval(iv: MapInterval): string {
    Text.Unwords([Text.ShowNat(iv.destStart), Text.ShowNat(iv.srcStart), Text.ShowNat(iv.len)])
  }

  lemma ParseShowInterval(iv: MapInterval)
    ensures ParseInterval(ShowInterval(iv)) == Ok(iv)
  {
    var ws := [Text.ShowNat(iv.destStart), Text.ShowNat(iv.srcStart), Text.ShowNat(iv.len)];
    forall k | 0 <= k < |ws|
      ensures |ws[k]| > 0 && Text.NoWhitespace(ws[k])
    {
      assert Text.AllDigits(ws[k]);
    }
    Text.SplitWhitespaceUnwords(ws);
    Text.ParseShowNat(iv.destStart);
    Text.ParseShowNat(iv.srcStart);
    Text.ParseShowNat(iv.len);
  }

  /** The first line of the almanac, `seeds: ` followed by the seed numbers.
      A missing first line, a missing prefix or a token that is not a number
      makes one of the `unwrap`s of the source panic. */
  function ParseSeeds(lines: seq<string>): (r: Result<seq<nat>>)
    ensures r.Ok? <==> |lines| > 0 && Text.StripPrefix(lines[0], "seeds: ").Some?
                       && var ts := Text.SplitWhitespace(Text.StripPrefix(lines[0], "seeds: ").value);
                          forall k :: 0 <= k < |ts| ==> Text.ParseNat(ts[k]).Some?
    ensures r.Ok? ==> var ts := Text.SplitWhitespace(lines[0][|"seeds: "|..]);
                      |r.value| == |ts| && forall k :: 0 <= k < |ts| ==> r.value[k] == Text.ParseNat(ts[k]).value
    ensures r.Err? ==> r.error.Panic?
  {
    if |lines| == 0 then Err(Panic(UnwrapNone))
    else
      match Text.StripPrefix(lines[0], "seeds: ")
      case None => Err(Panic(UnwrapNone))
      case Some(rest) => ParseNumbers(Text.SplitWhitespace(rest))
  }

  /** `map(usize::from_str).collect::<Result<_, _>>().unwrap()`. */
  function ParseNumbers(ts: seq<string>): (r: Result<seq<nat>>)
    ensures r.Ok? <==> forall k :: 0 <= k < |ts| ==> Text.ParseNat(ts[k]).Some?
    ensures r.Ok? ==> |r.value| == |ts| && forall k :: 0 <= k < |ts| ==> r.value[k] == Text.ParseNat(ts[k]).value
    ensures r.Err? ==> r.error.Panic?
  {
    if |ts| == 0 then Ok([])
    else
      match Text.ParseNat(ts[0])
      case None => Err(Panic(UnwrapErr))
      case Some(n) =>
        match ParseNumbers(ts[1..])
        case Err(e) => Err(e)
        case Ok(rest) => Ok([n] + rest)
  }

  /** The lines of one map block, each parsed with `line.parse().unwrap()`:
      a malformed interval line aborts the program. */
  function ParseMapBody(lines: seq<string>): (r: Result<AMap>)
    ensures r.Ok? <==> forall k :: 0 <= k < |lines| ==> ParseInterval(lines[k]).Ok?
    ensures r.Ok? ==> |r.value.ranges| == |lines|
    ensures r.Ok? ==> forall k :: 0 <= k < |lines| ==> r.value.ranges[k] == ParseInterval(lines[k]).value
    ensures r.Err? ==> r.error.Panic?
  {
    if |lines| == 0 then Ok(AMap([]))
    else
      match ParseInterval(lines[0])
      case Err(_) => Err(Panic(UnwrapErr))
      case Ok(iv) =>
        match ParseMapBody(lines[1..])
        case Err(e) => Err(e)
        case Ok(rest) => Ok(AMap([iv] + rest.ranges))
  }

  // ---------------------------------------------------------------------
  // Translating one number

  predicate Contains(iv: MapInterval, x: nat) {
    iv.srcStart <= x < iv.srcStart + iv.len
  }

  /** `AMap::get`: translate `x` by the first interval containing it, or
      leave it unchanged when no interval does. */
  function Get(rs: seq<MapInterval>, x: nat): nat {
    if |rs| == 0 then x
    else if x >= rs[0].srcStart && x < rs[0].srcStart + rs[0].len then rs[0].destStart + x - rs[0].srcStart
    else Get(rs[1..], x)
  }

  /** `get` answers by the first interval that contains `x`, and returns
      `x` itself when none does. */
  lemma {:induction false} GetFirstMatch(rs: seq<MapInterval>, x: nat)
    ensures FirstContaining(rs, x).None? ==> Get(rs, x) == x
    ensures FirstContaining(rs, x).Some? ==>
      var iv := rs[FirstContaining(rs, x).value];
      Get(rs, x) == iv.destStart + x - iv.srcStart
  {
    if |rs| > 0 && !Contains(rs[0], x) {
      GetFirstMatch(rs[1..], x);
    }
  }

  /** Index of the first interval containing `x`. */
  function FirstContaining(rs: seq<MapInterval>, x: nat): (r: Option<nat>)
    ensures r.Some? ==> r.value < |rs| && Contains(rs[r.value], x)
  {
    if |rs| == 0 then None
    else if Contains(rs[0], x) then Some(0)
    else
      match FirstContaining(rs[1..], x)
      case None => None
      case Some(k) => Some(k + 1)
  }

  lemma {:induction false} FirstContainingSpec(rs: seq<MapInterval>, x: nat)
    ensures var r := FirstContaining(rs, x);
      && (r.None? <==> forall k :: 0 <= k < |rs| ==> !Contains(rs[k], x))
      && (r.Some? ==> forall j :: 0 <= j < r.value ==> !Contains(rs[j], x))
  {
    if |rs| > 0 && !Contains(rs[0], x) {
      FirstContainingSpec(rs[1..], x);
      assert forall k :: 1 <= k < |rs| ==> rs[k] == rs[1..][k - 1];
    }
  }

  /** The smallest interval start strictly above `x` (`None` plays the role
      of `usize::MAX`). */
  function NextStart(rs: seq<MapInterval>, x: nat): (r: Option<nat>)
    ensures r.Some? ==> x < r.value
  {
    if |rs| == 0 then None
    else
      var prev := NextStart(rs[..|rs| - 1], x);
      var s := rs[|rs| - 1].srcStart;
      if s <= x then prev
      else
        match prev
        case None => Some(s)
        case Some(n) => if s < n then Some(s) else Some(n)
  }

  lemma {:induction false} NextStartSpec(rs: seq<MapInterval>, x: nat)
    ensures var r := NextStart(rs, x);
      && (r.None? <==> forall k :: 0 <= k < |rs| ==> rs[k].srcStart <= x)
      && (r.Some? ==> (exists k :: 0 <= k < |rs| && rs[k].srcStart == r.value)
                      && forall k :: 0 <= k < |rs| && x < rs[k].srcStart ==> r.value <= rs[k].srcStart)
  {
    if |rs| > 0 {
      NextStartSpec(rs[..|rs| - 1], x);
      assert forall k :: 0 <= k < |rs| - 1 ==> rs[k] == rs[..|rs| - 1][k];
    }
  }

  predicate Overlap(p: MapInterval, q: MapInterval) {
    p.len > 0 && q.len > 0 && p.srcStart < q.srcStart + q.len && q.srcStart < p.srcStart + p.len
  }

  /** No number lies in the source ranges of two intervals. */
  predicate Disjoint(rs: seq<MapInterval>) {
    forall a, b :: 0 <= a < b < |rs| ==> !Overlap(rs[a], rs[b])
  }

  /** With disjoint intervals, any interval containing `x` decides `Get`. */
  lemma GetByContaining(rs: seq<MapInterval>, k: nat, x: nat)
    requires Disjoint(rs)
    requires k < |rs| && Contains(rs[k], x)
    ensures Get(rs, x) == rs[k].destStart + x - rs[k].srcStart
  {
    GetFirstMatch(rs, x);
    FirstContainingSpec(rs, x);
    var f := FirstContaining(rs, x).value;
    if f != k {
      assert false;
    }
  }

  // ---------------------------------------------------------------------
  // Translating a range

  function MinNat(a: nat, b: nat): nat {
    if a <= b then a else b
  }

  /** No interval contains `x`. */
  predicate Uncovered(rs: seq<MapInterval>, x: nat) {
    forall k :: 0 <= k < |rs| ==> !Contains(rs[k], x)
  }

  /** The piece one iteration of `get_range` emits for the range
      `start .. start + remaining - 1`. */
  function Piece(rs: seq<MapInterval>, start: nat, remaining: nat): (p: Range)
    requires remaining > 0
    ensures 0 < p.1 <= remaining
  {
    match FirstContaining(rs, start)
    case Some(k) =>
      var offset := start - rs[k].srcStart;
      (rs[k].destStart + offset, MinNat(rs[k].len - offset, remaining))
    case None =>
      match NextStart(rs, start)
      case None => (start, remaining)
      case Some(n) => (start, MinNat(n - start, remaining))
  }

  /** A piece starting inside an interval is translated by that interval and
      does not run past the interval's end; it stops there or at the end of
      the range. */
  lemma PieceInside(rs: seq<MapInterval>, start: nat, remaining: nat, k: nat)
    requires remaining > 0
    requires FirstContaining(rs, start) == Some(k)
    ensures var p := Piece(rs, start, remaining);
      && p.0 == rs[k].destStart + (start - rs[k].srcStart)
      && start + p.1 <= rs[k].srcStart + rs[k].len
      && (p.1 == remaining || start + p.1 == rs[k].srcStart + rs[k].len)
  {
  }

  /** A piece starting outside every interval is emitted unchanged, no
      interval contains any of its numbers, and it stops at the next
      interval start or at the end of the range. */
  lemma PieceOutside(rs: seq<MapInterval>, start: nat, remaining: nat)
    requires remaining > 0
    requires FirstContaining(rs, start).None?
    ensures var p := Piece(rs, start, remaining);
      && p.0 == start
      && (forall y :: start <= y < start + p.1 ==> Uncovered(rs, y))
      && (p.1 == remaining || exists k :: 0 <= k < |rs| && rs[k].srcStart == start + p.1)
  {
    var p := Piece(rs, start, remaining);
    FirstContainingSpec(rs, start);
    NextStartSpec(rs, start);
    forall y | start <= y < start + p.1
      ensures Uncovered(rs, y)
    {
      forall k | 0 <= k < |rs|
        ensures !Contains(rs[k], y)
      {
        assert !Contains(rs[k], start);
        if rs[k].srcStart > start {
          assert NextStart(rs, start).Some?;
        }
      }
    }
  }

  /** The pieces `get_range` emits, in order. */
  function Pieces(rs: seq<MapInterval>, start: nat, remaining: nat): (ps: seq<Range>)
    decreases remaining
  {
    if remaining == 0 then []
    else
      var p := Piece(rs, start, remaining);
      [p] + Pieces(rs, start + p.1, remaining - p.1)
  }

  function SumLengths(ps: seq<Range>): nat {
    if |ps| == 0 then 0 else ps[0].1 + SumLengths(ps[1..])
  }

  predicate AllNonEmpty(ps: seq<Range>) {
    forall k :: 0 <= k < |ps| ==> ps[k].1 > 0
  }

  /** The numbers a list of ranges covers, in order. */
  function Covered(ps: seq<Range>): seq<nat> {
    if |ps| == 0 then [] else Run(ps[0].0, ps[0].1) + Covered(ps[1..])
  }

  /** The piece lengths add up to the length of the input range and every
      piece is non-empty, so the loop of `get_range` terminates and its
      closing `assert_eq!` holds. */
  lemma {:induction false} PiecesLengths(rs: seq<MapInterval>, start: nat, remaining: nat)
    ensures SumLengths(Pieces(rs, start, remaining)) == remaining
    ensures AllNonEmpty(Pieces(rs, start, remaining))
    decreases remaining
  {
    if remaining > 0 {
      var p := Piece(rs, start, remaining);
      var ps := Pieces(rs, start, remaining);
      var rest := Pieces(rs, start + p.1, remaining - p.1);
      assert ps == [p] + rest;
      assert ps[0] == p && ps[1..] == rest;
      PiecesLengths(rs, start + p.1, remaining - p.1);
    }
  }

  /** `get` applied to every number of a list. */
  function MapGet(rs: seq<MapInterval>, xs: seq<nat>): (ys: seq<nat>) {
    seq(|xs|, k requires 0 <= k < |xs| => Get(rs, xs[k]))
  }

  lemma MapGetAppend(rs: seq<MapInterval>, a: seq<nat>, b: seq<nat>)
    ensures MapGet(rs, a + b) == MapGet(rs, a) + MapGet(rs, b)
  {
  }

  /** The numbers `start .. start + len - 1`. */
  function Run(start: nat, len: nat): (xs: seq<nat>) {
    seq(len, j requires 0 <= j => start + j)
  }

  lemma RunSplit(start: nat, a: nat, n: nat)
    requires a <= n
    ensures Run(start, n) == Run(start, a) + Run(start + a, n - a)
  {
  }

  /** With disjoint intervals, the j-th number of a piece is what `get`
      gives for the j-th number it was cut from. */
  lemma PieceElementAgreesWithGet(rs: seq<MapInterval>, start: nat, remaining: nat, j: nat)
    requires Disjoint(rs) && remaining > 0
    requires j < Piece(rs, start, remaining).1
    ensures Piece(rs, start, remaining).0 + j == Get(rs, start + j)
  {
    match FirstContaining(rs, start)
    case Some(i) =>
      PieceInside(rs, start, remaining, i);
      GetByContaining(rs, i, start + j);
    case None =>
      PieceOutside(rs, start, remaining);
      assert Uncovered(rs, start + j);
      GetFirstMatch(rs, start + j);
  }

  lemma PieceAgreesWithGet(rs: seq<MapInterval>, start: nat, remaining: nat, p: Range)
    requires Disjoint(rs) && remaining > 0 && p == Piece(rs, start, remaining)
    ensures Run(p.0, p.1) == MapGet(rs, Run(start, p.1))
  {
    var head := Run(p.0, p.1);
    var want := MapGet(rs, Run(start, p.1));
    forall j | 0 <= j < p.1
      ensures head[j] == want[j]
    {
      PieceElementAgreesWithGet(rs, start, remaining, j);
    }
  }

  lemma MapGetRun(rs: seq<MapInterval>, start: nat, a: nat, n: nat)
    requires a <= n
    ensures MapGet(rs, Run(start, a)) + MapGet(rs, Run(start + a, n - a)) == MapGet(rs, Run(start, n))
  {
    RunSplit(start, a, n);
    MapGetAppend(rs, Run(start, a), Run(start + a, n - a));
  }

  /** The numbers the pieces cover: those of the first piece, then those of
      the pieces of the rest of the range. */
  lemma CoveredPiecesUnfold(rs: seq<MapInterval>, start: nat, remaining: nat, p: Range)
    requires remaining > 0 && p == Piece(rs, start, remaining)
    ensures Covered(Pieces(rs, start, remaining))
      == Run(p.0, p.1) + Covered(Pieces(rs, start + p.1, remaining - p.1))
  {
    var rest := Pieces(rs, start + p.1, remaining - p.1);
    assert Pieces(rs, start, remaining) == [p] + rest;
    assert ([p] + rest)[0] == p && ([p] + rest)[1..] == rest;
  }

  /** With disjoint intervals, the k-th number the pieces cover is what
      `get` gives for the k-th number of the input range. */
  lemma {:induction false} PiecesAgreeWithGet(rs: seq<MapInterval>, start: nat, remaining: nat)
    requires Disjoint(rs)
    ensures Covered(Pieces(rs, start, remaining)) == MapGet(rs, Run(start, remaining))
    decreases remaining
  {
    if remaining > 0 {
      var p := Piece(rs, start, remaining);
      calc {
        Covered(Pieces(rs, start, remaining));
        { CoveredPiecesUnfold(rs, start, remaining, p); }
        Run(p.0, p.1) + Covered(Pieces(rs, start + p.1, remaining - p.1));
        { PieceAgreesWithGet(rs, start, remaining, p);
          AppendLeft(Run(p.0, p.1), MapGet(rs, Run(start, p.1)), Covered(Pieces(rs, start + p.1, remaining - p.1))); }
        MapGet(rs, Run(start, p.1)) + Covered(Pieces(rs, start + p.1, remaining - p.1));
        { PiecesAgreeWithGet(rs, start + p.1, remaining - p.1);
          AppendRight(MapGet(rs, Run(start, p.1)), Covered(Pieces(rs, start + p.1, remaining - p.1)),
                      MapGet(rs, Run(start + p.1, remaining - p.1))); }
        MapGet(rs, Run(start, p.1)) + MapGet(rs, Run(start + p.1, remaining - p.1));
        { MapGetRun(rs, start, p.1, remaining); }
        MapGet(rs, Run(start, remaining));
      }
    } else {
      assert Run(start, 0) == [];
    }
  }

  lemma AppendLeft<T>(a: seq<T>, b: seq<T>, c: seq<T>)
    requires a == b
    ensures a + c == b + c
  {
  }

  lemma AppendRight<T>(a: seq<T>, b: seq<T>, c: seq<T>)
    requires b == c
    ensures a + b == a + c
  {
  }

  lemma PiecesUnfold(rs: seq<MapInterval>, start: nat, remaining: nat, p: Range)
    requires remaining > 0 && p == Piece(rs, start, remaining)
    ensures Pieces(rs, start, remaining) == [p] + Pieces(rs, start + p.1, remaining - p.1)
  {
  }

  lemma ExtendPrefix<T>(done: seq<T>, x: T, rest: seq<T>, todo: seq<T>, whole: seq<T>)
    requires done + todo == whole && todo == [x] + rest
    ensures (done + [x]) + rest == whole
  {
  }

  /** One step of the interval scan: the nearest start above `x` among the
      first `k + 1` intervals. */
  lemma NextStartStep(rs: seq<MapInterval>, x: nat, k: nat)
    requires k < |rs|
    ensures NextStart(rs[..k + 1], x)
      == if rs[k].srcStart <= x then NextStart(rs[..k], x)
         else match NextStart(rs[..k], x)
              case None => Some(rs[k].srcStart)
              case Some(n) => Some(if rs[k].srcStart < n then rs[k].srcStart else n)
  {
    assert rs[..k + 1][..k] == rs[..k];
  }

  /** The scan stopped at the first interval containing `start`. */
  lemma ScanFound(rs: seq<MapInterval>, start: nat, remaining: nat, k: nat)
    requires remaining > 0 && k < |rs| && Contains(rs[k], start)
    requires forall j :: 0 <= j < k ==> !Contains(rs[j], start)
    ensures var offset := start - rs[k].srcStart;
      Piece(rs, start, remaining) == (rs[k].destStart + offset, MinNat(rs[k].len - offset, remaining))
  {
    FirstContainingSpec(rs, start);
  }

  /** The scan went through every interval without finding `start`. */
  lemma ScanMissed(rs: seq<MapInterval>, start: nat, remaining: nat, next: Option<nat>)
    requires remaining > 0 && next == NextStart(rs[..|rs|], start)
    requires forall j :: 0 <= j < |rs| ==> !Contains(rs[j], start)
    ensures Piece(rs, start, remaining)
      == (start, match next case None => remaining case Some(n) => MinNat(n - start, remaining))
  {
    assert rs[..|rs|] == rs;
    FirstContainingSpec(rs, start);
  }

  /** One iteration of the loop of `AMap::get_range`: the intervals are
      scanned once, remembering the nearest interval start above `start`
      and stopping at the first interval that contains it; `curLen` stays
      0 exactly when no interval does. */
  method NextPiece(rs: seq<MapInterval>, start: nat, remaining: nat) returns (piece: Range)
    requires remaining > 0
    ensures piece == Piece(rs, start, remaining)
  {
    var next: Option<nat> := None;
    var curLen: nat := 0;
    var k := 0;
    while k < |rs|
      invariant 0 <= k <= |rs|
      invariant curLen == 0
      invariant forall j :: 0 <= j < k ==> !Contains(rs[j], start)
      invariant next == NextStart(rs[..k], start)
    {
      var iv := rs[k];
      NextStartStep(rs, start, k);
      if iv.srcStart > start {
        next := match next
          case None => Some(iv.srcStart)
          case Some(n) => Some(if iv.srcStart < n then iv.srcStart else n);
      }
      if start >= iv.srcStart && start < iv.srcStart + iv.len {
        var offset := start - iv.srcStart;
        curLen := MinNat(iv.len - offset, remaining);
        ScanFound(rs, start, remaining, k);
        return (iv.destStart + offset, curLen);
      }
      k := k + 1;
    }
    ScanMissed(rs, start, remaining, next);
    curLen := match next
      case None => remaining
      case Some(n) => MinNat(n - start, remaining);
    piece := (start, curLen);
  }

  /** A piece cut from a gap between intervals ends at the nearest interval
      start above it, `n`, or at the end of the range. */
  lemma ScanGap(rs: seq<MapInterval>, start: nat, remaining: nat, n: nat)
    requires remaining > 0 && Uncovered(rs, start)
    requires start < n && exists k :: 0 <= k < |rs| && rs[k].srcStart == n
    requires forall k :: 0 <= k < |rs| && start < rs[k].srcStart ==> n <= rs[k].srcStart
    ensures Piece(rs, start, remaining) == (start, MinNat(n - start, remaining))
  {
    FirstContainingSpec(rs, start);
    NextStartSpec(rs, start);
  }

  /** A piece cut above every interval start runs to the end of the range. */
  lemma ScanBeyond(rs: seq<MapInterval>, start: nat, remaining: nat)
    requires remaining > 0 && Uncovered(rs, start)
    requires forall k :: 0 <= k < |rs| ==> rs[k].srcStart <= start
    ensures Piece(rs, start, remaining) == (start, remaining)
  {
    FirstContainingSpec(rs, start);
    NextStartSpec(rs, start);
  }

  /** `AMap::get_range`: the pieces of the range `start0 .. start0 + len - 1`
      in order; their lengths add up to `len`, as the closing `assert_eq!`
      of the source checks, and none is empty. */
  method GetRange(m: AMap, start0: nat, len: nat) returns (out: seq<Range>)
    ensures out == Pieces(m.ranges, start0, len)
    ensures SumLengths(out) == len && AllNonEmpty(out)
  {
    var rs := m.ranges;
    out := [];
    var start: nat := start0;
    var remaining: nat := len;
    while remaining > 0
      invariant out + Pieces(rs, start, remaining) == Pieces(rs, start0, len)
      decreases remaining
    {
      var piece := NextPiece(rs, start, remaining);
      PiecesUnfold(rs, start, remaining, piece);
      ExtendPrefix(out, piece, Pieces(rs, start + piece.1, remaining - piece.1), Pieces(rs, start, remaining),
                   Pieces(rs, start0, len));
      out := out + [piece];
      start := start + piece.1;
      remaining := remaining - piece.1;
    }
    PiecesLengths(rs, start0, len);
  }

  // ---------------------------------------------------------------------
  // The two parts

  /** The location a seed ends up at after every map of the chain. */
  function Location(chain: seq<AMap>, x: nat): nat {
    if |chain| == 0 then x else Location(chain[1..], Get(chain[0].ranges, x))
  }

  function MapLocation(chain: seq<AMap>, xs: seq<nat>): (ys: seq<nat>)
    ensures |ys| == |xs|
    ensures forall k :: 0 <= k < |xs| ==> ys[k] == Location(chain, xs[k])
  {
    if |xs| == 0 then [] else [Location(chain, xs[0])] + MapLocation(chain, xs[1..])
  }

  /** `part1`: every seed's location and the closest one.  A missing map or
      an empty seed list makes the source panic. */
  function Part1(a: Almanac): (r: Result<(nat, set<nat>)>)
    ensures r.Ok? <==> |a.seeds| > 0 && |a.chain| > 0
    ensures r.Ok? ==> forall l :: l in r.value.1 <==>
                        exists i :: 0 <= i < |a.seeds| && l == Location(a.chain, a.seeds[i])
    ensures r.Ok? ==> r.value.0 in r.value.1 && forall l :: l in r.value.1 ==> r.value.0 <= l
  {
    if |a.chain| == 0 && |a.seeds| > 0 then Err(Panic("missing map for key \"seed\""))
    else if |a.seeds| == 0 then Err(Panic(UnwrapNone))
    else
      var locs := MapLocation(a.chain, a.seeds);
      var closest: nat := Seqs.Min(locs);
      Ok((closest, Elements(locs)))
  }

  /** The locations of a list, as the set `part1` also returns. */
  function Elements(s: seq<nat>): set<nat> {
    set l | l in s
  }

  lemma ElementsOfFour(s: seq<nat>, l1: nat, l2: nat, l3: nat, l4: nat)
    requires s == [l1, l2, l3, l4]
    ensures Elements(s) == {l1, l2, l3, l4}
  {
  }

  /** `Itertools::tuples` on the seed list: consecutive pairs, an odd last
      element dropped. */
  function SeedRanges(seeds: seq<nat>): (rs: seq<Range>)
    ensures |rs| == |seeds| / 2
    ensures forall i :: 0 <= i < |rs| ==> rs[i] == (seeds[2 * i], seeds[2 * i + 1])
  {
    if |seeds| < 2 then [] else [(seeds[0], seeds[1])] + SeedRanges(seeds[2..])
  }

  /** One step of `part2`: every range split by the map, pieces concatenated. */
  function MapRanges(rs: seq<MapInterval>, ranges: seq<Range>): seq<Range> {
    if |ranges| == 0 then []
    else Pieces(rs, ranges[0].0, ranges[0].1) + MapRanges(rs, ranges[1..])
  }

  function ThroughChain(chain: seq<AMap>, ranges: seq<Range>): seq<Range> {
    if |chain| == 0 then ranges else ThroughChain(chain[1..], MapRanges(chain[0].ranges, ranges))
  }

  /** The smallest range start. */
  function MinStart(ranges: seq<Range>): nat
    requires |ranges| > 0
  {
    if |ranges| == 1 then ranges[0].0
    else MinNat(ranges[0].0, MinStart(ranges[1..]))
  }

  /** `part2`: the smallest start among the ranges left after the chain.
      A missing map or an empty result makes the source panic. */
  function Part2(a: Almanac): Result<nat> {
    if |a.chain| == 0 then Err(Panic("missing map for key \"seed\""))
    else
      var final := ThroughChain(a.chain, SeedRanges(a.seeds));
      if |final| == 0 then Err(Panic(UnwrapNone))
      else Ok(MinStart(final))
  }

  predicate AllDisjoint(chain: seq<AMap>) {
    forall i :: 0 <= i < |chain| ==> Disjoint(chain[i].ranges)
  }

  // ---------------------------------------------------------------------
  // Part 2 finds the closest location of any seed in the seed ranges

  lemma {:induction false} CoveredAppend(a: seq<Range>, b: seq<Range>)
    ensures Covered(a + b) == Covered(a) + Covered(b)
  {
    if |a| > 0 {
      assert (a + b)[1..] == a[1..] + b;
      CoveredAppend(a[1..], b);
    } else {
      assert a + b == b;
    }
  }

  lemma {:induction false} MapRangesNonEmpty(rs: seq<MapInterval>, ranges: seq<Range>)
    ensures AllNonEmpty(MapRanges(rs, ranges))
  {
    if |ranges| > 0 {
      var ps := Pieces(rs, ranges[0].0, ranges[0].1);
      var rest := MapRanges(rs, ranges[1..]);
      PiecesLengths(rs, ranges[0].0, ranges[0].1);
      MapRangesNonEmpty(rs, ranges[1..]);
      assert forall k :: |ps| <= k < |ps + rest| ==> (ps + rest)[k] == rest[k - |ps|];
    }
  }

  lemma {:induction false} MapRangesCovered(rs: seq<MapInterval>, ranges: seq<Range>)
    requires Disjoint(rs)
    ensures Covered(MapRanges(rs, ranges)) == MapGet(rs, Covered(ranges))
  {
    if |ranges| > 0 {
      var (s, l) := ranges[0];
      var ps := Pieces(rs, s, l);
      PiecesAgreeWithGet(rs, s, l);
      MapRangesCovered(rs, ranges[1..]);
      CoveredAppend(ps, MapRanges(rs, ranges[1..]));
      MapGetAppend(rs, Run(s, l), Covered(ranges[1..]));
    }
  }

  lemma {:induction false} ThroughChainCovered(chain: seq<AMap>, ranges: seq<Range>)
    requires AllDisjoint(chain)
    ensures Covered(ThroughChain(chain, ranges)) == MapLocation(chain, Covered(ranges))
    ensures |chain| > 0 ==> AllNonEmpty(ThroughChain(chain, ranges))
  {
    if |chain| > 0 {
      var next := MapRanges(chain[0].ranges, ranges);
      MapRangesCovered(chain[0].ranges, ranges);
      MapRangesNonEmpty(chain[0].ranges, ranges);
      ThroughChainCovered(chain[1..], next);
    }
  }

  /** A list of non-empty ranges covers some number iff it is non-empty, and
      its smallest start is the smallest number it covers. */
  lemma {:induction false} MinStartIsMinCovered(ranges: seq<Range>)
    requires AllNonEmpty(ranges)
    ensures |Covered(ranges)| > 0 <==> |ranges| > 0
    ensures |ranges| > 0 ==> MinStart(ranges) in Covered(ranges)
    ensures |ranges| > 0 ==> forall k :: 0 <= k < |Covered(ranges)| ==> MinStart(ranges) <= Covered(ranges)[k]
  {
    if |ranges| > 0 {
      var head := Run(ranges[0].0, ranges[0].1);
      var c := Covered(ranges);
      assert c == head + Covered(ranges[1..]);
      assert c[0] == ranges[0].0;
      if |ranges| > 1 {
        MinStartIsMinCovered(ranges[1..]);
      }
    }
  }

  /** `part2` answers with the closest location of any seed in the seed
      ranges, provided no map has overlapping intervals; it fails exactly
      when the seed ranges are all empty or the chain is missing. */
  lemma Part2IsClosestLocation(a: Almanac)
    requires AllDisjoint(a.chain)
    ensures var seeds := Covered(SeedRanges(a.seeds));
      && (Part2(a).Ok? <==> |a.chain| > 0 && |seeds| > 0)
      && (Part2(a).Ok? ==>
            && (exists k :: 0 <= k < |seeds| && Location(a.chain, seeds[k]) == Part2(a).value)
            && (forall k :: 0 <= k < |seeds| ==> Part2(a).value <= Location(a.chain, seeds[k])))
  {
    var seeds := Covered(SeedRanges(a.seeds));
    if |a.chain| > 0 {
      var final := ThroughChain(a.chain, SeedRanges(a.seeds));
      ThroughChainCovered(a.chain, SeedRanges(a.seeds));
      MinStartIsMinCovered(final);
      var locs := Covered(final);
      assert |locs| == |seeds|;
      if |final| > 0 {
        var m := MinStart(final);
        var k :| 0 <= k < |locs| && locs[k] == m;
        assert Location(a.chain, seeds[k]) == m;
      }
    }
  }

  // ---------------------------------------------------------------------
  // The puzzle's example almanac

  function Iv(dest: nat, src: nat, len: nat): MapInterval {
    MapInterval(len, src, dest)
  }

  const SeedToSoil := [Iv(50, 98, 2), Iv(52, 50, 48)]
  const SoilToFertilizer := [Iv(0, 15, 37), Iv(37, 52, 2), Iv(39, 0, 15)]
  const FertilizerToWater := [Iv(49, 53, 8), Iv(0, 11, 42), Iv(42, 0, 7), Iv(57, 7, 4)]
  const WaterToLight := [Iv(88, 18, 7), Iv(18, 25, 70)]
  const LightToTemperature := [Iv(45, 77, 23), Iv(81, 45, 19), Iv(68, 64, 13)]
  const TemperatureToHumidity := [Iv(0, 69, 1), Iv(1, 0, 69)]
  const HumidityToLocation := [Iv(60, 56, 37), Iv(56, 93, 4)]

  const Sample := Almanac([79, 14, 55, 13], [
    AMap(SeedToSoil), AMap(SoilToFertilizer), AMap(FertilizerToWater), AMap(WaterToLight),
    AMap(LightToTemperature), AMap(TemperatureToHumidity), AMap(HumidityToLocation)
  ])

  /** The example chain taken apart map by map. */
  lemma SampleChainSuffixes()
    ensures Sample.chain[0].ranges == SeedToSoil && Sample.chain[1..][0].ranges == SoilToFertilizer
    ensures Sample.chain[1..][1..][0].ranges == FertilizerToWater
    ensures Sample.chain[1..][1..][1..][0].ranges == WaterToLight
    ensures Sample.chain[1..][1..][1..][1..][0].ranges == LightToTemperature
    ensures Sample.chain[1..][1..][1..][1..][1..][0].ranges == TemperatureToHumidity
    ensures Sample.chain[1..][1..][1..][1..][1..][1..][0].ranges == HumidityToLocation
    ensures |Sample.chain[1..][1..][1..][1..][1..][1..]| == 1
  {
  }

  lemma SampleLocation(x: nat, y1: nat, y2: nat, y3: nat, y4: nat, y5: nat, y6: nat, y7: nat)
    requires Get(SeedToSoil, x) == y1 && Get(SoilToFertilizer, y1) == y2
    requires Get(FertilizerToWater, y2) == y3 && Get(WaterToLight, y3) == y4
    requires Get(LightToTemperature, y4) == y5 && Get(TemperatureToHumidity, y5) == y6
    requires Get(HumidityToLocation, y6) == y7
    ensures Location(Sample.chain, x) == y7
  {
    SampleChainSuffixes();
    var c0 := Sample.chain;
    var c1 := c0[1..];
    var c2 := c1[1..];
    var c3 := c2[1..];
    var c4 := c3[1..];
    var c5 := c4[1..];
    var c6 := c5[1..];
    assert c6[1..] == [];
    assert Location(c6, y6) == y7;
    assert Location(c5, y5) == y7;
    assert Location(c4, y4) == y7;
    assert Location(c3, y3) == y7;
    assert Location(c2, y2) == y7;
    assert Location(c1, y1) == y7;
  }

  lemma SampleLocations()
    ensures Location(Sample.chain, 79) == 82 && Location(Sample.chain, 14) == 43
    ensures Location(Sample.chain, 55) == 86 && Location(Sample.chain, 13) == 35
  {
    SampleLocation(79, 81, 81, 81, 74, 78, 78, 82);
    SampleLocation(14, 14, 53, 49, 42, 42, 43, 43);
    SampleLocation(55, 57, 57, 53, 46, 82, 82, 86);
    SampleLocation(13, 13, 52, 41, 34, 34, 35, 35);
  }

  lemma Part1OfFour(a: Almanac, l1: nat, l2: nat, l3: nat, l4: nat)
    requires |a.chain| > 0 && MapLocation(a.chain, a.seeds) == [l1, l2, l3, l4]
    ensures Part1(a) == Ok((Seqs.Min([l1, l2, l3, l4]), {l1, l2, l3, l4}))
  {
    var locs := [l1, l2, l3, l4];
    var r := Part1(a);
    assert r.Ok?;
    assert r.value.0 == Seqs.Min(locs);
    assert r.value.1 == Elements(locs);
    ElementsOfFour(locs, l1, l2, l3, l4);
  }

  lemma SampleLocationList()
    ensures MapLocation(Sample.chain, Sample.seeds) == [82, 43, 86, 35]
  {
    SampleLocations();
  }

  lemma SamplePart1()
    ensures Part1(Sample) == Ok((35, {82, 43, 86, 35}))
  {
    SampleLocationList();
    Part1OfFour(Sample, 82, 43, 86, 35);
    var locs := [82, 43, 86, 35];
    assert Seqs.Min(locs) == 35 by {
      var m := Seqs.Min(locs);
      assert m in locs && m <= locs[3];
    }
  }

  lemma SamplePieces00()
    ensures Pieces(SeedToSoil, 79, 14) == [(81, 14)]
  {
    var rs := SeedToSoil;
    ScanFound(rs, 79, 14, 1);
  }

  lemma SamplePieces01()
    ensures Pieces(SeedToSoil, 55, 13) == [(57, 13)]
  {
    var rs := SeedToSoil;
    ScanFound(rs, 55, 13, 1);
  }

  lemma SampleStage0()
    ensures MapRanges(SeedToSoil, [(79, 14), (55, 13)]) == [(81, 14), (57, 13)]
  {
    SamplePieces00(); SamplePieces01();
  }

  lemma SamplePieces10()
    ensures Pieces(SoilToFertilizer, 81, 14) == [(81, 14)]
  {
    var rs := SoilToFertilizer;
    ScanBeyond(rs, 81, 14);
  }

  lemma SamplePieces11()
    ensures Pieces(SoilToFertilizer, 57, 13) == [(57, 13)]
  {
    var rs := SoilToFertilizer;
    ScanBeyond(rs, 57, 13);
  }

  lemma SampleStage1()
    ensures MapRanges(SoilToFertilizer, [(81, 14), (57, 13)]) == [(81, 14), (57, 13)]
  {
    SamplePieces10(); SamplePieces11();
  }

  lemma SamplePieces20()
    ensures Pieces(FertilizerToWater, 81, 14) == [(81, 14)]
  {
    var rs := FertilizerToWater;
    ScanBeyond(rs, 81, 14);
  }

  lemma SamplePieces21()
    ensures Pieces(FertilizerToWater, 57, 13) == [(53, 4), (61, 9)]
  {
    var rs := FertilizerToWater;
    ScanFound(rs, 57, 13, 0);
    ScanBeyond(rs, 61, 9);
  }

  lemma SampleStage2()
    ensures MapRanges(FertilizerToWater, [(81, 14), (57, 13)]) == [(81, 14), (53, 4), (61, 9)]
  {
    SamplePieces20(); SamplePieces21();
  }

  lemma SamplePieces30()
    ensures Pieces(WaterToLight, 81, 14) == [(74, 14)]
  {
    var rs := WaterToLight;
    ScanFound(rs, 81, 14, 1);
  }

  lemma SamplePieces31()
    ensures Pieces(WaterToLight, 53, 4) == [(46, 4)]
  {
    var rs := WaterToLight;
    ScanFound(rs, 53, 4, 1);
  }

  lemma SamplePieces32()
    ensures Pieces(WaterToLight, 61, 9) == [(54, 9)]
  {
    var rs := WaterToLight;
    ScanFound(rs, 61, 9, 1);
  }

  lemma SampleStage3()
    ensures MapRanges(WaterToLight, [(81, 14), (53, 4), (61, 9)]) == [(74, 14), (46, 4), (54, 9)]
  {
    SamplePieces30(); SamplePieces31(); SamplePieces32();
  }

  lemma SamplePieces40()
    ensures Pieces(LightToTemperature, 74, 14) == [(78, 3), (45, 11)]
  {
    var rs := LightToTemperature;
    ScanFound(rs, 74, 14, 2);
    ScanFound(rs, 77, 11, 0);
  }

  lemma SamplePieces41()
    ensures Pieces(LightToTemperature, 46, 4) == [(82, 4)]
  {
    var rs := LightToTemperature;
    ScanFound(rs, 46, 4, 1);
  }

  lemma SamplePieces42()
    ensures Pieces(LightToTemperature, 54, 9) == [(90, 9)]
  {
    var rs := LightToTemperature;
    ScanFound(rs, 54, 9, 1);
  }

  lemma SampleStage4()
    ensures MapRanges(LightToTemperature, [(74, 14), (46, 4), (54, 9)]) == [(78, 3), (45, 11), (82, 4), (90, 9)]
  {
    SamplePieces40(); SamplePieces41(); SamplePieces42();
  }

  lemma SamplePieces50()
    ensures Pieces(TemperatureToHumidity, 78, 3) == [(78, 3)]
  {
    var rs := TemperatureToHumidity;
    ScanBeyond(rs, 78, 3);
  }

  lemma SamplePieces51()
    ensures Pieces(TemperatureToHumidity, 45, 11) == [(46, 11)]
  {
    var rs := TemperatureToHumidity;
    ScanFound(rs, 45, 11, 1);
  }

  lemma SamplePieces52()
    ensures Pieces(TemperatureToHumidity, 82, 4) == [(82, 4)]
  {
    var rs := TemperatureToHumidity;
    ScanBeyond(rs, 82, 4);
  }

  lemma SamplePieces53()
    ensures Pieces(TemperatureToHumidity, 90, 9) == [(90, 9)]
  {
    var rs := TemperatureToHumidity;
    ScanBeyond(rs, 90, 9);
  }

  lemma SampleStage5()
    ensures MapRanges(TemperatureToHumidity, [(78, 3), (45, 11), (82, 4), (90, 9)]) == [(78, 3), (46, 11), (82, 4), (90, 9)]
  {
    SamplePieces50(); SamplePieces51(); SamplePieces52(); SamplePieces53();
  }

  lemma SamplePieces60()
    ensures Pieces(HumidityToLocation, 78, 3) == [(82, 3)]
  {
    var rs := HumidityToLocation;
    ScanFound(rs, 78, 3, 0);
  }

  lemma SamplePieces61()
    ensures Pieces(HumidityToLocation, 46, 11) == [(46, 10), (60, 1)]
  {
    var rs := HumidityToLocation;
    assert rs[0].srcStart == 56; ScanGap(rs, 46, 11, 56);
    ScanFound(rs, 56, 1, 0);
  }

  lemma SamplePieces62()
    ensures Pieces(HumidityToLocation, 82, 4) == [(86, 4)]
  {
    var rs := HumidityToLocation;
    ScanFound(rs, 82, 4, 0);
  }

  lemma SamplePieces63()
    ensures Pieces(HumidityToLocation, 90, 9) == [(94, 3), (56, 4), (97, 2)]
  {
    var rs := HumidityToLocation;
    ScanFound(rs, 90, 9, 0);
    ScanFound(rs, 93, 6, 1);
    ScanBeyond(rs, 97, 2);
  }

  lemma SampleStage6()
    ensures MapRanges(HumidityToLocation, [(78, 3), (46, 11), (82, 4), (90, 9)]) == [(82, 3), (46, 10), (60, 1), (86, 4), (94, 3), (56, 4), (97, 2)]
  {
    var rs, a, b, c, d := HumidityToLocation, (78, 3), (46, 11), (82, 4), (90, 9);
    var pa, pb, pc, pd := [(82, 3)], [(46, 10), (60, 1)], [(86, 4)], [(94, 3), (56, 4), (97, 2)];
    SamplePieces60(); SamplePieces61(); SamplePieces62(); SamplePieces63();
    MapRangesOfFour(rs, a, b, c, d, pa, pb, pc, pd);
  }

  lemma MapRangesOfFour(rs: seq<MapInterval>, a: Range, b: Range, c: Range, d: Range,
                        pa: seq<Range>, pb: seq<Range>, pc: seq<Range>, pd: seq<Range>)
    requires Pieces(rs, a.0, a.1) == pa && Pieces(rs, b.0, b.1) == pb
    requires Pieces(rs, c.0, c.1) == pc && Pieces(rs, d.0, d.1) == pd
    ensures MapRanges(rs, [a, b, c, d]) == pa + pb + pc + pd
  {
    assert [a, b, c, d][1..] == [b, c, d] && [b, c, d][1..] == [c, d] && [c, d][1..] == [d];
    assert MapRanges(rs, [d]) == pd + [];
    assert MapRanges(rs, [c, d]) == pc + pd;
    assert MapRanges(rs, [b, c, d]) == pb + (pc + pd);
    assert pa + (pb + (pc + pd)) == pa + pb + pc + pd;
  }

  lemma SampleThroughChain(r0: seq<Range>, r1: seq<Range>, r2: seq<Range>, r3: seq<Range>,
                            r4: seq<Range>, r5: seq<Range>, r6: seq<Range>, r7: seq<Range>)
    requires MapRanges(SeedToSoil, r0) == r1 && MapRanges(SoilToFertilizer, r1) == r2
    requires MapRanges(FertilizerToWater, r2) == r3 && MapRanges(WaterToLight, r3) == r4
    requires MapRanges(LightToTemperature, r4) == r5 && MapRanges(TemperatureToHumidity, r5) == r6
    requires MapRanges(HumidityToLocation, r6) == r7
    ensures ThroughChain(Sample.chain, r0) == r7
  {
    SampleChainSuffixes();
    var c0 := Sample.chain;
    var c1 := c0[1..];
    var c2 := c1[1..];
    var c3 := c2[1..];
    var c4 := c3[1..];
    var c5 := c4[1..];
    var c6 := c5[1..];
    assert c6[1..] == [];
    assert ThroughChain(c6, r6) == r7;
    assert ThroughChain(c5, r5) == r7;
    assert ThroughChain(c4, r4) == r7;
    assert ThroughChain(c3, r3) == r7;
    assert ThroughChain(c2, r2) == r7;
    assert ThroughChain(c1, r1) == r7;
  }

  lemma SamplePart2()
    ensures Part2(Sample) == Ok(46)
  {
    var final := [(82, 3), (46, 10), (60, 1), (86, 4), (94, 3), (56, 4), (97, 2)];
    assert ThroughChain(Sample.chain, SeedRanges(Sample.seeds)) == final by {
      assert SeedRanges(Sample.seeds) == [(79, 14), (55, 13)];
      SampleStage0(); SampleStage1(); SampleStage2(); SampleStage3();
      SampleStage4(); SampleStage5(); SampleStage6();
      SampleThroughChain([(79, 14), (55, 13)], [(81, 14), (57, 13)], [(81, 14), (57, 13)],
                         [(81, 14), (53, 4), (61, 9)], [(74, 14), (46, 4), (54, 9)],
                         [(78, 3), (45, 11), (82, 4), (90, 9)], [(78, 3), (46, 11), (82, 4), (90, 9)], final);
    }
  }
}
