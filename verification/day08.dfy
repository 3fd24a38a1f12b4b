/** Day 8, "Haunted Wasteland": a network of nodes, each with a left and a
    right successor, and a path of `L`/`R` instructions that repeats for
    ever.  Part 1 counts the steps from node `AAA` to node `ZZZ`. */
module Day08 {
  import opened Wrappers
  import Text
  import Arith

  /** A node's name and its (left, right) successors. */
  type Entry = (string, (string, string))

  datatype Data = Data(path: string, network: map<string, (string, string)>)

  const PathMissing := "input truncated, path missing"
  const Incomplete := "incomplete network map"
  const InvalidPath := "Invalid path"

  // ---------------------------------------------------------------------
  // Reading the network

  /** `Option::unwrap`. */
  function Unwrap<T>(o: Option<T>): (r: Result<T>)
    ensures o.Some? ==> r == Ok(o.value)
    ensures o.None? ==> r == Err(Panic(UnwrapNone))
  {
    match o
    case Some(v) => Ok(v)
    case None => Err(Panic(UnwrapNone))
  }

  /** The text after `=` of a node line: inside the parentheses, the two
      names either side of the comma, each trimmed. */
  function ReadSuccessors(to: string): Result<(string, string)> {
    var inner :- Unwrap(Text.StripPrefix(Text.Trim(to), "("));
    var pair :- Unwrap(Text.StripSuffix(inner, ")"));
    var names :- Unwrap(Text.SplitOnce(pair, ','));
    Ok((Text.Trim(names.0), Text.Trim(names.1)))
  }

  /** One line `X = (L, R)`: the trimmed name before `=` and the successors
      after it. */
  function ReadNode(line: string): Result<Entry> {
    var sides :- Unwrap(Text.SplitOnce(line, '='));
    var successors :- ReadSuccessors(sides.1);
    Ok((Text.Trim(sides.0), successors))
  }

  /** `filter(|l| !l.is_empty())`. */
  function NonEmpty(ls: seq<string>): (r: seq<string>)
    ensures forall k :: 0 <= k < |r| ==> r[k] != ""
  {
    if |ls| == 0 then []
    else if ls[0] == "" then NonEmpty(ls[1..])
    else [ls[0]] + NonEmpty(ls[1..])
  }

  /** The names the entries give successors to. */
  function Names(entries: seq<Entry>): set<string> {
    set i | 0 <= i < |entries| :: entries[i].0
  }

  /** `collect::<HashMap<_, _>>()`: each entry inserted in turn, so a later
      entry for the same node replaces an earlier one. */
  function ToMap(entries: seq<Entry>): (m: map<string, (string, string)>)
    ensures m.Keys == Names(entries)
  {
    if |entries| == 0 then map[]
    else
      var last := entries[|entries| - 1];
      var front := entries[..|entries| - 1];
      assert Names(entries) == Names(front) + {last.0} by {
        forall x | x in Names(entries) ensures x in Names(front) + {last.0} {
          var i :| 0 <= i < |entries| && entries[i].0 == x;
          if i < |front| {
            assert front[i] == entries[i];
          }
        }
        forall x | x in Names(front) ensures x in Names(entries) {
          var i :| 0 <= i < |front| && front[i].0 == x;
          assert entries[i] == front[i];
        }
      }
      ToMap(front)[last.0 := last.1]
  }

  /** The last entry for a node is the one the map keeps. */
  lemma {:induction false} ToMapLast(entries: seq<Entry>, i: nat)
    requires i < |entries| && forall j :: i < j < |entries| ==> entries[j].0 != entries[i].0
    ensures entries[i].0 in ToMap(entries) && ToMap(entries)[entries[i].0] == entries[i].1
  {
    if i < |entries| - 1 {
      var front := entries[..|entries| - 1];
      assert front[i] == entries[i];
      ToMapLast(front, i);
    }
  }

  /** `read_part1`: the path on the first line, then one node per non-empty
      line.  An empty input has no path; a node line that lacks `=`, the
      parentheses or the comma panics. */
  function ReadPart1(input: string): (r: Result<Data>)
    ensures |Text.Lines(input)| == 0 ==> r == Err(Panic(PathMissing))
    ensures r.Ok? ==> r.value.path == Text.Lines(input)[0]
  {
    var ls := Text.Lines(input);
    if |ls| == 0 then Err(Panic(PathMissing))
    else
      var entries :- MapAll(ReadNode, NonEmpty(ls[1..]));
      Ok(Data(ls[0], ToMap(entries)))
  }

  // ---------------------------------------------------------------------
  // Writing the network

  /** A node name: not empty, no whitespace and none of `=(),`. */
  predicate IsName(s: string) {
    |s| > 0 && Text.NoWhitespace(s) && '=' !in s && ',' !in s && '(' !in s && ')' !in s
  }

  function ShowNode(e: Entry): string {
    e.0 + " = (" + e.1.0 + ", " + e.1.1 + ")"
  }

  function ShowNodes(entries: seq<Entry>): (ls: seq<string>)
    ensures |ls| == |entries| && forall k :: 0 <= k < |entries| ==> ls[k] == ShowNode(entries[k])
  {
    if |entries| == 0 then [] else [ShowNode(entries[0])] + ShowNodes(entries[1..])
  }

  /** The path, a blank line and one line per node. */
  function Show(path: string, entries: seq<Entry>): string {
    Text.Unlines([path, ""] + ShowNodes(entries))
  }

  lemma TrimName(pre: string, s: string, post: string)
    requires IsName(s) && Text.AllWhitespace(pre) && Text.AllWhitespace(post)
    ensures Text.Trim(pre + s + post) == s
  {
    Text.TrimPadded(pre, s, post);
  }

  /** The stages of `ReadSuccessors`, one at a time. */
  lemma ReadSuccessorsOf(to: string, inner: string, pair: string, a: string, b: string)
    requires Text.StripPrefix(Text.Trim(to), "(") == Some(inner)
    requires Text.StripSuffix(inner, ")") == Some(pair)
    requires Text.SplitOnce(pair, ',') == Some((a, b))
    ensures ReadSuccessors(to) == Ok((Text.Trim(a), Text.Trim(b)))
  {
  }

  lemma StripParens(pair: string)
    ensures Text.StripPrefix("(" + pair + ")", "(") == Some(pair + ")")
    ensures Text.StripSuffix(pair + ")", ")") == Some(pair)
  {
    var w := "(" + pair + ")";
    assert w == "(" + (pair + ")");
    assert (pair + ")")[|pair|..] == ")";
  }

  /** How `(l, r)` is put together, out of the sight of `IsName`. */
  lemma SuccessorsText(l: string, r: string)
    ensures " (" + l + ", " + r + ")" == " " + ("(" + (l + [','] + (" " + r)) + ")") + ""
  {
  }

  lemma ReadShowSuccessors(l: string, r: string)
    requires IsName(l) && IsName(r)
    ensures ReadSuccessors(" (" + l + ", " + r + ")") == Ok((l, r))
  {
    var pair := l + [','] + (" " + r);
    var w := "(" + pair + ")";
    SuccessorsText(l, r);
    Text.TrimPadded(" ", w, "");
    StripParens(pair);
    Text.SplitOnceAt(l, ',', " " + r);
    TrimName("", l, "");
    assert "" + l + "" == l;
    TrimName(" ", r, "");
    assert " " + r + "" == " " + r;
    ReadSuccessorsOf(" (" + l + ", " + r + ")", pair + ")", pair, l, " " + r);
  }

  /** How `X = (L, R)` is put together, out of the sight of `IsName`. */
  lemma NodeText(name: string, l: string, r: string)
    ensures name + " = (" + l + ", " + r + ")" == (name + " ") + ['='] + (" (" + l + ", " + r + ")")
  {
  }

  /** A node written as a line reads back. */
  lemma ReadShowNode(e: Entry)
    requires IsName(e.0) && IsName(e.1.0) && IsName(e.1.1)
    ensures ReadNode(ShowNode(e)) == Ok(e)
  {
    var to := " (" + e.1.0 + ", " + e.1.1 + ")";
    NodeText(e.0, e.1.0, e.1.1);
    assert '=' !in e.0 + " ";
    Text.SplitOnceAt(e.0 + " ", '=', to);
    ReadShowSuccessors(e.1.0, e.1.1);
    TrimName("", e.0, " ");
    assert "" + e.0 + " " == e.0 + " ";
  }

  /** A node written out is a non-empty line. */
  lemma ShowNodeIsLine(e: Entry)
    requires IsName(e.0) && IsName(e.1.0) && IsName(e.1.1)
    ensures ShowNode(e) != "" && Text.IsLine(ShowNode(e))
  {
    var line := ShowNode(e);
    assert line[|line| - 1] == ')';
    forall i | 0 <= i < |line| ensures line[i] != '\n' && line[i] != '\r' {
      var a, b, c := |e.0|, |e.0| + 4 + |e.1.0|, |e.0| + 4 + |e.1.0| + 2 + |e.1.1|;
      if i < a {
        assert line[i] == e.0[i];
      } else if a + 4 <= i < b {
        assert line[i] == e.1.0[i - a - 4];
      } else if b + 2 <= i < c {
        assert line[i] == e.1.1[i - b - 2];
      }
    }
  }

  lemma {:induction false} NonEmptyAll(ls: seq<string>)
    requires forall k :: 0 <= k < |ls| ==> ls[k] != ""
    ensures NonEmpty(ls) == ls
  {
    if |ls| > 0 {
      NonEmptyAll(ls[1..]);
    }
  }

  /** Entries whose names are all node names. */
  predicate AllNames(entries: seq<Entry>) {
    forall k :: 0 <= k < |entries| ==> IsName(entries[k].0) && IsName(entries[k].1.0) && IsName(entries[k].1.1)
  }

  lemma ShowNodesRead(entries: seq<Entry>)
    requires AllNames(entries)
    ensures MapAll(ReadNode, ShowNodes(entries)) == Ok(entries)
  {
    var nodes := ShowNodes(entries);
    forall k | 0 <= k < |nodes|
      ensures ReadNode(nodes[k]) == Ok(entries[k])
    {
      ReadShowNode(entries[k]);
    }
    MapAllOk(ReadNode, nodes, entries);
  }

  /** The lines of a written network: the path, a blank line, the nodes. */
  lemma ShowLines(path: string, entries: seq<Entry>)
    requires Text.IsLine(path) && AllNames(entries)
    ensures Text.Lines(Show(path, entries)) == [path, ""] + ShowNodes(entries)
    ensures NonEmpty(([path, ""] + ShowNodes(entries))[1..]) == ShowNodes(entries)
  {
    var nodes := ShowNodes(entries);
    forall k | 0 <= k < |nodes|
      ensures nodes[k] != "" && Text.IsLine(nodes[k])
    {
      ShowNodeIsLine(entries[k]);
    }
    var ls := [path, ""] + nodes;
    forall k | 0 <= k < |ls| ensures Text.IsLine(ls[k]) {
      if k >= 2 {
        assert ls[k] == nodes[k - 2];
      }
    }
    Text.LinesUnlines(ls);
    assert ls[1..] == [""] + nodes;
    NonEmptyAll(nodes);
  }

  /** A written network reads back as its path and the map of its
      entries. */
  lemma ReadShow(path: string, entries: seq<Entry>)
    requires Text.IsLine(path) && AllNames(entries)
    ensures ReadPart1(Show(path, entries)) == Ok(Data(path, ToMap(entries)))
  {
    ShowLines(path, entries);
    ShowNodesRead(entries);
  }

  // ---------------------------------------------------------------------
  // The walk

  /** Step `k` from `loc`: look the node up, then follow the left or the
      right successor as instruction `k mod |path|` says.  A node missing
      from the network panics first; an empty path or an instruction other
      than `L` and `R` panics next. */
  function Step(data: Data, loc: string, k: nat): (r: Result<string>)
    ensures r.Err? ==> r.error == Panic(if loc !in data.network then Incomplete else InvalidPath)
  {
    if loc !in data.network then Err(Panic(Incomplete))
    else if |data.path| == 0 then Err(Panic(InvalidPath))
    else
      var (left, right) := data.network[loc];
      match data.path[k % |data.path|]
      case 'L' => Ok(left)
      case 'R' => Ok(right)
      case _ => Err(Panic(InvalidPath))
  }

  /** Where the walk from `AAA` is after `k` steps, were it never to stop. */
  function Walk(data: Data, k: nat): Result<string> {
    if k == 0 then Ok("AAA")
    else
      var loc :- Walk(data, k - 1);
      Step(data, loc, k - 1)
  }

  /** The walk reaches `ZZZ` for the first time after `n` steps. */
  predicate Arrives(data: Data, n: nat) {
    Walk(data, n) == Ok("ZZZ") && forall k :: 0 <= k < n ==> Walk(data, k).Ok? && Walk(data, k).value != "ZZZ"
  }

  /** The walk has not reached `ZZZ` within its first `n + 1` positions. */
  predicate Travelling(data: Data, n: nat) {
    forall k :: 0 <= k <= n ==> Walk(data, k).Ok? && Walk(data, k).value != "ZZZ"
  }

  /** `part1`, which loops for as long as the walk goes on, given at most
      `fuel` steps: `Some(n)` when `ZZZ` is first reached after `n` steps,
      `None` when the walk is still going after `fuel` steps, and the
      walk's panic when step `n` fails first. */
  method Part1(data: Data, fuel: nat) returns (r: Result<Option<nat>>)
    ensures r.Ok? && r.value.Some? ==> Arrives(data, r.value.value) && r.value.value <= fuel
    ensures r.Ok? && r.value.None? ==> Travelling(data, fuel)
    ensures r.Err? ==> exists n :: 0 <= n < fuel && Travelling(data, n) && Walk(data, n + 1) == Err(r.error)
  {
    var loc := "AAA";
    var steps: nat := 0;
    while loc != "ZZZ"
      invariant steps <= fuel
      invariant Walk(data, steps) == Ok(loc)
      invariant forall k :: 0 <= k < steps ==> Walk(data, k).Ok? && Walk(data, k).value != "ZZZ"
      decreases fuel - steps
    {
      if steps == fuel {
        return Ok(None);
      }
      var next := Step(data, loc, steps);
      if next.Err? {
        assert Travelling(data, steps);
        return Err(next.error);
      }
      loc := next.value;
      steps := steps + 1;
    }
    return Ok(Some(steps));
  }

  /** Only one step count can be the first arrival. */
  lemma ArrivesOnce(data: Data, n: nat, m: nat)
    requires Arrives(data, n) && Arrives(data, m)
    ensures n == m
  {
  }

  // ---------------------------------------------------------------------
  // A walk that comes round again never arrives

  /** A whole number of passes through the path gives the same step. */
  lemma StepPhase(data: Data, loc: string, k: nat, p: nat)
    requires |data.path| > 0 && p % |data.path| == 0
    ensures Step(data, loc, k + p) == Step(data, loc, k)
  {
    Arith.ModShift(k, p, |data.path|);
  }

  /** `p` steps are a whole number of passes through the path. */
  predicate WholePasses(data: Data, p: nat) {
    |data.path| > 0 && p % |data.path| == 0
  }

  /** One step further along the walk. */
  lemma WalkNext(data: Data, k: nat)
    ensures Walk(data, k + 1) == if Walk(data, k).Err? then Walk(data, k) else Step(data, Walk(data, k).value, k)
  {
  }

  /** Two walks at the same node and the same point of the path take the
      same next step. */
  lemma RepeatStep(data: Data, k: nat, p: nat)
    requires WholePasses(data, p)
    requires k > 0 && Walk(data, k - 1 + p) == Walk(data, k - 1)
    ensures Walk(data, k + p) == Walk(data, k)
  {
    var j: nat := k - 1;
    WalkNext(data, j);
    WalkNext(data, j + p);
    if Walk(data, j).Ok? {
      StepPhase(data, Walk(data, j).value, j, p);
    }
    assert j + p + 1 == k + p;
  }

  /** Once the walk is back where it was, at the same point of the path,
      it repeats itself. */
  lemma {:induction false} WalkRepeats(data: Data, i: nat, p: nat, k: nat)
    requires WholePasses(data, p)
    requires Walk(data, i + p) == Walk(data, i)
    requires k >= i
    ensures Walk(data, k + p) == Walk(data, k)
    decreases k
  {
    if k > i {
      WalkRepeats(data, i, p, k - 1);
      RepeatStep(data, k, p);
    }
  }

  /** A walk that returns to the same node after a whole number of passes
      through the path, without meeting `ZZZ` or a panic on the way, never
      reaches `ZZZ`: `part1` then loops for ever. */
  lemma {:induction false} NeverArrives(data: Data, i: nat, p: nat, k: nat)
    requires WholePasses(data, p) && p > 0
    requires Walk(data, i + p) == Walk(data, i)
    requires Travelling(data, i + p)
    ensures Walk(data, k).Ok? && Walk(data, k).value != "ZZZ"
    decreases k
  {
    if k > i + p {
      WalkRepeats(data, i, p, k - p);
      NeverArrives(data, i, p, k - p);
    }
  }

  // ---------------------------------------------------------------------
  // The samples

  /** The first sample: `RL` and seven nodes. */
  const Sample1Entries: seq<Entry> := [
    ("AAA", ("BBB", "CCC")),
    ("BBB", ("DDD", "EEE")),
    ("CCC", ("ZZZ", "GGG")),
    ("DDD", ("DDD", "DDD")),
    ("EEE", ("EEE", "EEE")),
    ("GGG", ("GGG", "GGG")),
    ("ZZZ", ("ZZZ", "ZZZ"))
  ]

  /** The second sample: `LLR` and three nodes. */
  const Sample2Entries: seq<Entry> := [
    ("AAA", ("BBB", "BBB")),
    ("BBB", ("AAA", "ZZZ")),
    ("ZZZ", ("ZZZ", "ZZZ"))
  ]

  /** A three-letter upper-case name is a node name. */
  lemma LetterName(s: string)
    requires |s| == 3 && forall i :: 0 <= i < 3 ==> 'A' <= s[i] <= 'Z'
    ensures IsName(s)
  {
  }

  lemma LetterNames(entries: seq<Entry>)
    requires forall k :: 0 <= k < |entries| ==>
      var e := entries[k];
      |e.0| == |e.1.0| == |e.1.1| == 3
      && forall i :: 0 <= i < 3 ==> 'A' <= e.0[i] <= 'Z' && 'A' <= e.1.0[i] <= 'Z' && 'A' <= e.1.1[i] <= 'Z'
    ensures AllNames(entries)
  {
    forall k | 0 <= k < |entries| ensures IsName(entries[k].0) && IsName(entries[k].1.0) && IsName(entries[k].1.1) {
      LetterName(entries[k].0);
      LetterName(entries[k].1.0);
      LetterName(entries[k].1.1);
    }
  }

  lemma Sample1Names()
    ensures AllNames(Sample1Entries)
  {
    LetterNames(Sample1Entries);
  }

  lemma Sample2Names()
    ensures AllNames(Sample2Entries)
  {
    LetterNames(Sample2Entries);
  }

  lemma Sample1Walk(data: Data)
    requires data == Data("RL", ToMap(Sample1Entries))
    ensures Arrives(data, 2)
  {
    ToMapLast(Sample1Entries, 0);
    ToMapLast(Sample1Entries, 2);
    assert Walk(data, 1) == Ok("CCC");
    assert Walk(data, 2) == Ok("ZZZ");
  }

  lemma Sample2Walk(data: Data)
    requires data == Data("LLR", ToMap(Sample2Entries))
    ensures Arrives(data, 6)
  {
    ToMapLast(Sample2Entries, 0);
    ToMapLast(Sample2Entries, 1);
    assert Walk(data, 1) == Ok("BBB");
    assert Walk(data, 2) == Ok("AAA");
    assert Walk(data, 3) == Ok("BBB");
    assert Walk(data, 4) == Ok("AAA");
    assert Walk(data, 5) == Ok("BBB");
    assert Walk(data, 6) == Ok("ZZZ");
  }

  /** The first sample reads as its network and reaches `ZZZ` in 2 steps. */
  lemma Sample1()
    ensures ReadPart1(Show("RL", Sample1Entries)) == Ok(Data("RL", ToMap(Sample1Entries)))
    ensures Arrives(Data("RL", ToMap(Sample1Entries)), 2)
  {
    Sample1Names();
    ReadShow("RL", Sample1Entries);
    Sample1Walk(Data("RL", ToMap(Sample1Entries)));
  }

  /** The second sample reads as its network and reaches `ZZZ` in 6 steps,
      going round its path twice. */
  lemma Sample2()
    ensures ReadPart1(Show("LLR", Sample2Entries)) == Ok(Data("LLR", ToMap(Sample2Entries)))
    ensures Arrives(Data("LLR", ToMap(Sample2Entries)), 6)
  {
    Sample2Names();
    ReadShow("LLR", Sample2Entries);
    Sample2Walk(Data("LLR", ToMap(Sample2Entries)));
  }
}
