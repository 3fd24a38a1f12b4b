/** Day 2, "Cube Conundrum": every game shows a few handfuls ("draws") of
    red, green and blue cubes taken from a bag.  Part 1 adds up the ids of
    the games a bag of 12 red, 13 green and 14 blue cubes allows; part 2
    adds up, over all games, the product of the fewest cubes of each colour
    the game needs. */
module Day02 {
  import opened Wrappers
  import Text
  import Seqs

  /** `Draw`: a number of cubes of each colour. */
  datatype Draw = Draw(red: nat, green: nat, blue: nat)

  /** `Draw::default()`. */
  const NoCubes := Draw(0, 0, 0)

  /** A game as a line describes it: its id and its draws. */
  type Game = (nat, seq<Draw>)

  // ---------------------------------------------------------------------
  // The componentwise order

  /** `PartialOrd::partial_cmp`. */
  function PartialCmp(a: Draw, b: Draw): Option<Ordering> {
    if a.red == b.red && a.green == b.green && a.blue == b.blue then Some(Equal)
    else if a.red <= b.red && a.green <= b.green && a.blue <= b.blue then Some(Less)
    else if a.red >= b.red && a.green >= b.green && a.blue >= b.blue then Some(Greater)
    else None
  }

  /** `a <= b`, which Rust derives from `partial_cmp`: `Less` or `Equal`. */
  predicate Le(a: Draw, b: Draw) {
    PartialCmp(a, b) == Some(Less) || PartialCmp(a, b) == Some(Equal)
  }

  /** `<=` is `<=` on each colour; two draws are incomparable exactly when
      neither is `<=` the other; swapping the operands reverses the answer. */
  lemma PartialCmpSpec(a: Draw, b: Draw)
    ensures Le(a, b) <==> a.red <= b.red && a.green <= b.green && a.blue <= b.blue
    ensures PartialCmp(a, b) == Some(Equal) <==> a == b
    ensures PartialCmp(a, b) == Some(Less) <==> a != b && Le(a, b)
    ensures PartialCmp(a, b).None? <==> !Le(a, b) && !Le(b, a)
    ensures PartialCmp(b, a) == match PartialCmp(a, b)
      case None => None
      case Some(o) => Some(o.Reverse())
  {
  }

  /** `<=` on draws is a partial order. */
  lemma LeIsPartialOrder(a: Draw, b: Draw, c: Draw)
    ensures Le(a, a)
    ensures Le(a, b) && Le(b, a) ==> a == b
    ensures Le(a, b) && Le(b, c) ==> Le(a, c)
  {
  }

  function Max(x: nat, y: nat): nat {
    if x >= y then x else y
  }

  /** `Draw::union`. */
  function Union(a: Draw, b: Draw): Draw {
    Draw(Max(a.red, b.red), Max(a.green, b.green), Max(a.blue, b.blue))
  }

  /** `union` is the least upper bound for `<=`: above both operands, and
      below every draw that is above both. */
  lemma UnionIsJoin(a: Draw, b: Draw, c: Draw)
    ensures Le(a, Union(a, b)) && Le(b, Union(a, b))
    ensures Le(a, c) && Le(b, c) <==> Le(Union(a, b), c)
  {
  }

  lemma UnionLaws(a: Draw, b: Draw, c: Draw)
    ensures Union(a, b) == Union(b, a)
    ensures Union(Union(a, b), c) == Union(a, Union(b, c))
    ensures Union(a, a) == a
  {
  }

  /** `Draw::contains_all`: each of the draws is `<=` the bag. */
  function ContainsAll(bag: Draw, ds: seq<Draw>): (r: bool)
    ensures r <==> forall k :: 0 <= k < |ds| ==>
      ds[k].red <= bag.red && ds[k].green <= bag.green && ds[k].blue <= bag.blue
  {
    if |ds| == 0 then true
    else
      assert forall k :: 1 <= k < |ds| ==> ds[k] == ds[1..][k - 1];
      Le(ds[0], bag) && ContainsAll(bag, ds[1..])
  }

  /** `iter().copied().reduce(Draw::union)`: `None` when there are no draws. */
  function UnionAll(ds: seq<Draw>): (r: Option<Draw>)
    ensures r.Some? <==> |ds| > 0
    ensures r.Some? ==> ContainsAll(r.value, ds)
  {
    if |ds| == 0 then None
    else if |ds| == 1 then Some(ds[0])
    else
      var init := ds[..|ds| - 1];
      assert forall k :: 0 <= k < |ds| - 1 ==> ds[k] == init[k];
      Some(Union(UnionAll(init).value, ds[|ds| - 1]))
  }

  /** The union of the draws is below every bag that contains them all. */
  lemma {:induction false} UnionAllLeast(ds: seq<Draw>, bag: Draw)
    requires |ds| > 0 && ContainsAll(bag, ds)
    ensures Le(UnionAll(ds).value, bag)
  {
    if |ds| > 1 {
      var init := ds[..|ds| - 1];
      assert ContainsAll(bag, init) by {
        assert forall k :: 0 <= k < |init| ==> init[k] == ds[k];
      }
      UnionAllLeast(init, bag);
    }
  }

  /** `Draw::power`. */
  function Power(d: Draw): nat {
    d.red * d.blue * d.green
  }

  /** More cubes of each colour never lower the power. */
  lemma PowerMonotone(a: Draw, b: Draw)
    requires Le(a, b)
    ensures Power(a) <= Power(b)
  {
    assert a.red * a.blue <= b.red * a.blue <= b.red * b.blue;
    assert a.red * a.blue * a.green <= b.red * b.blue * a.green;
    assert b.red * b.blue * a.green <= b.red * b.blue * b.green;
  }

  /** Part 2's term for a game: the union of its draws is a bag that allows
      the game, and no bag that allows the game has a smaller power. */
  lemma FewestCubes(ds: seq<Draw>, bag: Draw)
    requires |ds| > 0 && ContainsAll(bag, ds)
    ensures ContainsAll(UnionAll(ds).value, ds)
    ensures Power(UnionAll(ds).value) <= Power(bag)
  {
    UnionAllLeast(ds, bag);
    PowerMonotone(UnionAll(ds).value, bag);
  }

  // ---------------------------------------------------------------------
  // Reading a draw

  const UnknownColour := "unknown color"

  /** `n` cubes of the named colour; any other name is a parse error. */
  function Cubes(n: nat, colour: string): Result<Draw> {
    if colour == "red" then Ok(Draw(n, 0, 0))
    else if colour == "green" then Ok(Draw(0, n, 0))
    else if colour == "blue" then Ok(Draw(0, 0, n))
    else Err(ParseError(UnknownColour))
  }

  /** One comma-separated item, "<count> <colour>" with whitespace around
      it.  A missing space and a count that does not parse panic. */
  function ReadCubes(item: string): Result<Draw> {
    match Text.SplitOnce(Text.Trim(item), ' ')
    case None => Err(Panic(UnwrapNone))
    case Some((count, colour)) =>
      match Text.ParseNat(Text.Trim(count))
      case None => Err(Panic(UnwrapErr))
      case Some(n) => Cubes(n, Text.Trim(colour))
  }

  function Add(a: Draw, b: Draw): Draw {
    Draw(a.red + b.red, a.green + b.green, a.blue + b.blue)
  }

  /** The draws added up, starting from no cubes. */
  function Total(ds: seq<Draw>): Draw {
    if |ds| == 0 then NoCubes else Add(ds[0], Total(ds[1..]))
  }

  lemma {:induction false} TotalAppend(a: seq<Draw>, b: seq<Draw>)
    ensures Total(a + b) == Add(Total(a), Total(b))
  {
    if |a| == 0 {
      assert a + b == b;
      var y := Total(b);
      assert Add(NoCubes, y) == Draw(y.red, y.green, y.blue) == y;
    } else {
      assert (a + b)[0] == a[0];
      assert (a + b)[1..] == a[1..] + b;
      TotalAppend(a[1..], b);
    }
  }

  /** `Draw::from_str`: the items between commas are read in turn and their
      counts added to a draw that starts empty; the first item that fails
      decides the error. */
  function ReadDraw(input: string): Result<Draw> {
    var items :- MapAll(ReadCubes, Text.Split(input, ','));
    Ok(Total(items))
  }

  /** An item written as a space, a count, a space and a colour name reads
      as that many cubes of the colour, or fails with the unknown-colour
      error. */
  lemma ReadShownCubes(n: nat, colour: string)
    requires |colour| > 0 && Text.NoWhitespace(colour)
    ensures ReadCubes(ShowCubes(n, colour)) == Cubes(n, colour)
  {
    var count := Text.ShowNat(n);
    assert Text.AllDigits(count);
    assert Text.NoWhitespace(count);
    TrimmedItem(count, colour);
    ReadCubesOf(ShowCubes(n, colour), count, colour);
    Text.ParseShowNat(n);
  }

  lemma TrimmedItem(count: string, colour: string)
    requires |count| > 0 && Text.AllDigits(count)
    requires |colour| > 0 && Text.NoWhitespace(colour)
    ensures Text.Trim(" " + count + " " + colour) == count + [' '] + colour
  {
    var inner := count + [' '] + colour;
    assert !Text.IsAsciiWhitespace(inner[0]) && !Text.IsAsciiWhitespace(inner[|inner| - 1]);
    Text.TrimPadded(" ", inner, "");
    assert " " + inner + "" == " " + count + " " + colour;
  }

  /** An item whose trimmed text is a space-free count, a space and a
      colour name reads as the count of that colour. */
  lemma ReadCubesOf(item: string, count: string, colour: string)
    requires Text.Trim(item) == count + [' '] + colour && ' ' !in count
    ensures ReadCubes(item) == match Text.ParseNat(Text.Trim(count))
      case None => Err(Panic(UnwrapErr))
      case Some(n) => Cubes(n, Text.Trim(colour))
  {
    Text.SplitOnceAt(count, ' ', colour);
  }

  /** " <count> <colour>". */
  function ShowCubes(n: nat, colour: string): string {
    " " + Text.ShowNat(n) + " " + colour
  }

  /** A character that is neither a space, a digit nor in the colour name
      is not in a written item. */
  lemma ShowCubesWithout(n: nat, colour: string, x: char)
    requires x != ' ' && !Text.IsAsciiDigit(x) && x !in colour
    ensures x !in ShowCubes(n, colour)
  {
    assert Text.AllDigits(Text.ShowNat(n));
  }

  /** Reading "<a>,<b>" adds the cubes of both parts, so a colour named
      twice counts twice; an error in `a` comes first, then one in `b`. */
  lemma ReadDrawAppend(a: string, b: string)
    ensures ReadDraw(a + "," + b) ==
      match ReadDraw(a)
      case Err(e) => Err(e)
      case Ok(x) =>
        match ReadDraw(b)
        case Err(e) => Err(e)
        case Ok(y) => Ok(Add(x, y))
  {
    assert a + "," + b == a + [','] + b;
    Text.SplitAppend(a, ',', b);
    MapAllAppend(ReadCubes, Text.Split(a, ','), Text.Split(b, ','));
    match MapAll(ReadCubes, Text.Split(a, ','))
    case Err(_) =>
    case Ok(u) =>
      match MapAll(ReadCubes, Text.Split(b, ','))
      case Err(_) =>
      case Ok(v) =>
        TotalAppend(u, v);
  }

  /** A draw with a single item reads as that item. */
  lemma ReadOneItem(item: string)
    requires ',' !in item
    ensures ReadDraw(item) == ReadCubes(item)
  {
    assert Text.SplitOnce(item, ',').None?;
    assert Text.Split(item, ',') == [item];
    CollectOne(ReadCubes, item);
  }

  /** Collecting one item and adding it up gives that item. */
  lemma CollectOne(f: string -> Result<Draw>, item: string)
    ensures (var m := MapAll(f, [item]); if m.Ok? then Ok(Total(m.value)) else Err(m.error)) == f(item)
  {
    assert [item][1..] == [];
    if f(item).Ok? {
      var x := f(item).value;
      MapAllOk(f, [item], [x]);
      assert [x][1..] == [];
      assert Total([x]) == Add(x, NoCubes) == Draw(x.red, x.green, x.blue) == x;
    }
  }

  /** A written item, read as a draw of its own. */
  lemma ReadShownItem(n: nat, colour: string)
    requires |colour| > 0 && Text.NoWhitespace(colour) && ',' !in colour
    ensures ReadDraw(ShowCubes(n, colour)) == Cubes(n, colour)
  {
    ReadShownCubes(n, colour);
    ShowCubesWithout(n, colour, ',');
    ReadOneItem(ShowCubes(n, colour));
  }

  /** An unknown colour name is a parse error, and nothing after it is
      read. */
  lemma UnknownColourFails(n: nat, colour: string, rest: string)
    requires |colour| > 0 && Text.NoWhitespace(colour) && ',' !in colour
    requires colour != "red" && colour != "green" && colour != "blue"
    ensures ReadDraw(ShowCubes(n, colour) + "," + rest) == Err(ParseError(UnknownColour))
  {
    ReadShownItem(n, colour);
    ReadDrawAppend(ShowCubes(n, colour), rest);
  }

  /** A colour named twice in a draw counts twice. */
  lemma RepeatedColourAdds(n: nat, m: nat, colour: string)
    requires colour == "red" || colour == "green" || colour == "blue"
    ensures ReadDraw(ShowCubes(n, colour) + "," + ShowCubes(m, colour)) == Cubes(n + m, colour)
  {
    CubesAdd(n, m, colour);
    ReadShownItem(n, colour);
    ReadShownItem(m, colour);
    ReadDrawAppendOk(ShowCubes(n, colour), ShowCubes(m, colour), Cubes(n, colour).value, Cubes(m, colour).value);
  }

  lemma CubesAdd(n: nat, m: nat, colour: string)
    requires colour == "red" || colour == "green" || colour == "blue"
    ensures Cubes(n, colour).Ok? && Cubes(m, colour).Ok?
    ensures Cubes(n + m, colour) == Ok(Add(Cubes(n, colour).value, Cubes(m, colour).value))
  {
  }

  lemma ReadDrawAppendOk(a: string, b: string, x: Draw, y: Draw)
    requires ReadDraw(a) == Ok(x) && ReadDraw(b) == Ok(y)
    ensures ReadDraw(a + "," + b) == Ok(Add(x, y))
  {
    ReadDrawAppend(a, b);
  }

  /** A draw written with all three colours, as the puzzle input does:
      " <red> red, <green> green, <blue> blue". */
  function ShowDraw(d: Draw): string {
    Text.Join(DrawItems(d), ',')
  }

  function DrawItems(d: Draw): seq<string> {
    [ShowCubes(d.red, "red"), ShowCubes(d.green, "green"), ShowCubes(d.blue, "blue")]
  }

  /** Items joined with commas read as the total of their cubes. */
  lemma ReadJoinedItems(items: seq<string>, ds: seq<Draw>)
    requires |items| >= 1 && |ds| == |items|
    requires forall k :: 0 <= k < |items| ==> ',' !in items[k] && ReadCubes(items[k]) == Ok(ds[k])
    ensures ReadDraw(Text.Join(items, ',')) == Ok(Total(ds))
  {
    Text.SplitJoin(items, ',');
    MapAllOk(ReadCubes, items, ds);
  }

  /** The cubes of each colour of a draw, as separate draws. */
  function Colours(d: Draw): seq<Draw> {
    [Draw(d.red, 0, 0), Draw(0, d.green, 0), Draw(0, 0, d.blue)]
  }

  /** Reading a written draw gives the draw back. */
  lemma ReadShowDraw(d: Draw)
    ensures ReadDraw(ShowDraw(d)) == Ok(d)
  {
    DrawItemsRead(d);
    ReadJoinedItems(DrawItems(d), Colours(d));
    TotalOfColours(d, Colours(d));
  }

  lemma DrawItemsRead(d: Draw)
    ensures forall k :: 0 <= k < |DrawItems(d)| ==>
      ',' !in DrawItems(d)[k] && ReadCubes(DrawItems(d)[k]) == Ok(Colours(d)[k])
  {
    forall k | 0 <= k < 3
      ensures ',' !in DrawItems(d)[k] && ReadCubes(DrawItems(d)[k]) == Ok(Colours(d)[k])
    {
      DrawItemRead(d, k);
    }
  }

  lemma DrawItemRead(d: Draw, k: nat)
    requires k < 3
    ensures ',' !in DrawItems(d)[k] && ReadCubes(DrawItems(d)[k]) == Ok(Colours(d)[k])
  {
    if k == 0 {
      ColourItemRead(d.red, "red", Draw(d.red, 0, 0));
    } else if k == 1 {
      ColourItemRead(d.green, "green", Draw(0, d.green, 0));
    } else {
      ColourItemRead(d.blue, "blue", Draw(0, 0, d.blue));
    }
  }

  lemma ColourItemRead(n: nat, colour: string, cubes: Draw)
    requires |colour| > 0 && Text.NoWhitespace(colour) && ',' !in colour
    requires Cubes(n, colour) == Ok(cubes)
    ensures ',' !in ShowCubes(n, colour) && ReadCubes(ShowCubes(n, colour)) == Ok(cubes)
  {
    ShowCubesWithout(n, colour, ',');
    ReadShownCubes(n, colour);
  }

  lemma TotalOfColours(d: Draw, ds: seq<Draw>)
    requires ds == Colours(d)
    ensures Total(ds) == d
  {
    var t2 := ds[1..][1..];
    assert t2[1..] == [];
    assert Total(t2) == Add(Draw(0, 0, d.blue), NoCubes) == Draw(0, 0, d.blue);
    assert Total(ds[1..]) == Add(Draw(0, d.green, 0), Draw(0, 0, d.blue)) == Draw(0, d.green, d.blue);
  }

  /** A written draw has no semicolon or line break and ends with the 'e'
      of "blue". */
  lemma ShowDrawChars(d: Draw)
    ensures ';' !in ShowDraw(d) && '\n' !in ShowDraw(d)
    ensures |ShowDraw(d)| > 0 && ShowDraw(d)[|ShowDraw(d)| - 1] == 'e'
  {
    var items := DrawItems(d);
    DrawItemsWithout(d, ';');
    DrawItemsWithout(d, '\n');
    Text.NotInJoin(items, ',', ';');
    Text.NotInJoin(items, ',', '\n');
    LastOfJoin(items, ',');
  }

  lemma DrawItemsWithout(d: Draw, x: char)
    requires x == ',' || x == ';' || x == '\n'
    ensures forall k :: 0 <= k < 3 ==> x !in DrawItems(d)[k]
  {
    ShowCubesWithout(d.red, "red", x);
    ShowCubesWithout(d.green, "green", x);
    ShowCubesWithout(d.blue, "blue", x);
  }

  /** A join ends with its last piece. */
  lemma {:induction false} LastOfJoin(pieces: seq<string>, c: char)
    requires |pieces| >= 1 && |pieces[|pieces| - 1]| > 0
    ensures var s := Text.Join(pieces, c); var last := pieces[|pieces| - 1];
      |s| > 0 && s[|s| - 1] == last[|last| - 1]
  {
    if |pieces| > 1 {
      LastOfJoin(pieces[1..], c);
    }
  }

  // ---------------------------------------------------------------------
  // Reading the games

  /** One line, "Game <id>:" followed by draws separated by semicolons.  A
      missing colon, a missing "Game" or an unreadable id panics; otherwise
      the first draw that fails decides the error. */
  function ReadGame(line: string): Result<Game> {
    match Text.SplitOnce(line, ':')
    case None => Err(Panic(UnwrapNone))
    case Some((head, rest)) =>
      match Text.StripPrefix(head, "Game")
      case None => Err(Panic(UnwrapNone))
      case Some(idText) =>
        match Text.ParseNat(Text.Trim(idText))
        case None => Err(Panic(UnwrapErr))
        case Some(id) =>
          var draws :- MapAll(ReadDraw, Text.Split(rest, ';'));
          Ok((id, draws))
  }

  /** `collect` into a `HashMap`: a later entry with an id already present
      replaces the earlier one. */
  function GamesOf(entries: seq<Game>): (games: map<nat, seq<Draw>>)
    ensures games.Keys == set k | 0 <= k < |entries| :: entries[k].0
    ensures forall id :: id in games ==> (id, games[id]) in entries
  {
    if |entries| == 0 then map[]
    else
      var init := entries[..|entries| - 1];
      assert forall k :: 0 <= k < |init| ==> init[k] == entries[k];
      GamesOf(init)[entries[|entries| - 1].0 := entries[|entries| - 1].1]
  }

  /** `Data::from_str`: the lines read in turn, the first failing line
      deciding the error, and collected into the map of games. */
  function Read(input: string): Result<map<nat, seq<Draw>>> {
    var entries :- MapAll(ReadGame, Text.Lines(input));
    Ok(GamesOf(entries))
  }

  /** The map keeps, for each id, the draws of the last line with that id. */
  lemma {:induction false} GamesOfLast(entries: seq<Game>, k: nat)
    requires k < |entries|
    requires forall j :: k < j < |entries| ==> entries[j].0 != entries[k].0
    ensures GamesOf(entries)[entries[k].0] == entries[k].1
  {
    if k < |entries| - 1 {
      var init := entries[..|entries| - 1];
      assert init[k] == entries[k];
      GamesOfLast(init, k);
    }
  }

  /** With distinct ids the map holds exactly the entries, each once. */
  lemma {:induction false} GamesOfDistinct(entries: seq<Game>)
    requires DistinctIds(entries)
    ensures multiset(entries) == multiset(ItemsOf(GamesOf(entries)))
  {
    if |entries| > 0 {
      var init := entries[..|entries| - 1];
      var last := entries[|entries| - 1];
      assert entries == init + [last];
      GamesOfDistinct(init);
      var before := GamesOf(init);
      assert last.0 !in before;
      ItemsOfInsert(before, last.0, last.1);
    }
  }

  /** The entries of a map as (key, value) pairs. */
  function ItemsOf(games: map<nat, seq<Draw>>): set<Game> {
    set id | id in games :: (id, games[id])
  }

  /** Inserting a new key adds exactly its entry to the items. */
  lemma ItemsOfInsert(m: map<nat, seq<Draw>>, k: nat, v: seq<Draw>)
    requires k !in m
    ensures multiset(ItemsOf(m[k := v])) == multiset(ItemsOf(m)) + multiset{(k, v)}
  {
    var after := m[k := v];
    var both := ItemsOf(m) + {(k, v)};
    forall p | p in ItemsOf(after)
      ensures p in both
    {
      if p.0 != k {
        assert p.0 in m && m[p.0] == p.1;
        assert p in ItemsOf(m);
      }
    }
    forall p | p in both
      ensures p in ItemsOf(after)
    {
      if p != (k, v) {
        var j :| j in m && p == (j, m[j]);
        assert j in after && p == (j, after[j]);
      } else {
        assert p == (k, after[k]);
      }
    }
    assert ItemsOf(after) == both;
    assert (k, v) !in ItemsOf(m);
  }

  /** A line that reads has at least one draw. */
  lemma ReadGameHasDraws(line: string)
    ensures ReadGame(line).Ok? ==> |ReadGame(line).value.1| > 0
  {
  }

  // ---------------------------------------------------------------------
  // Writing the games back

  /** "Game <id>:" followed by the written draws, separated by semicolons. */
  function ShowGame(game: Game): string
    requires |game.1| > 0
  {
    "Game " + Text.ShowNat(game.0) + ":" + Text.Join(ShownDraws(game.1), ';')
  }

  function ShownDraws(ds: seq<Draw>): (r: seq<string>)
    ensures |r| == |ds| && forall k :: 0 <= k < |ds| ==> r[k] == ShowDraw(ds[k])
  {
    if |ds| == 0 then [] else [ShowDraw(ds[0])] + ShownDraws(ds[1..])
  }

  /** A line "Game <id>:<body>" reads as that id and the draws of the
      body, or fails with the first draw that fails. */
  lemma ReadGameLine(id: nat, body: string)
    ensures var draws := MapAll(ReadDraw, Text.Split(body, ';'));
      ReadGame("Game " + Text.ShowNat(id) + ":" + body) ==
        if draws.Ok? then Ok((id, draws.value)) else Err(draws.error)
  {
    var shownId := Text.ShowNat(id);
    var head := "Game " + shownId;
    assert Text.AllDigits(shownId);
    assert ':' !in head;
    Text.SplitOnceAt(head, ':', body);
    assert head + [':'] + body == "Game " + shownId + ":" + body;
    assert head == "Game" + (" " + shownId);
    Text.TrimPadded(" ", shownId, "");
    assert " " + shownId + "" == " " + shownId;
    Text.ParseShowNat(id);
  }

  /** The written draws of a game, joined with semicolons, read back. */
  lemma ReadShownDraws(ds: seq<Draw>)
    requires |ds| > 0
    ensures MapAll(ReadDraw, Text.Split(Text.Join(ShownDraws(ds), ';'), ';')) == Ok(ds)
  {
    var pieces := ShownDraws(ds);
    forall k | 0 <= k < |ds|
      ensures ';' !in pieces[k] && ReadDraw(pieces[k]) == Ok(ds[k])
    {
      ShowDrawChars(ds[k]);
      ReadShowDraw(ds[k]);
    }
    Text.SplitJoin(pieces, ';');
    MapAllOk(ReadDraw, pieces, ds);
  }

  /** A written game is one line: no line feed, and it ends with the 'e' of
      "blue". */
  lemma ShowGameIsLine(game: Game)
    requires |game.1| > 0
    ensures Text.IsLine(ShowGame(game))
  {
    var pieces := ShownDraws(game.1);
    forall k | 0 <= k < |pieces|
      ensures '\n' !in pieces[k]
    {
      ShowDrawChars(game.1[k]);
    }
    Text.NotInJoin(pieces, ';', '\n');
    ShowDrawChars(game.1[|pieces| - 1]);
    LastOfJoin(pieces, ';');
    assert Text.AllDigits(Text.ShowNat(game.0));
  }

  /** Reading a written game gives the game back. */
  lemma ReadShowGame(game: Game)
    requires |game.1| > 0
    ensures ReadGame(ShowGame(game)) == Ok(game)
  {
    var body := Text.Join(ShownDraws(game.1), ';');
    ReadGameLine(game.0, body);
    ReadShownDraws(game.1);
  }

  /** Reading the written lines of games with distinct ids gives back the
      map of those games. */
  lemma ReadShowGames(entries: seq<Game>, lines: seq<string>)
    requires forall k :: 0 <= k < |entries| ==> |entries[k].1| > 0
    requires |lines| == |entries| && forall k :: 0 <= k < |lines| ==> lines[k] == ShowGame(entries[k])
    ensures Read(Text.Unlines(lines)) == Ok(GamesOf(entries))
  {
    forall k | 0 <= k < |lines|
      ensures Text.IsLine(lines[k]) && ReadGame(lines[k]) == Ok(entries[k])
    {
      ShowGameIsLine(entries[k]);
      ReadShowGame(entries[k]);
    }
    Text.LinesUnlines(lines);
    MapAllOk(ReadGame, lines, entries);
  }

  // ---------------------------------------------------------------------
  // The two parts

  /** The bag of part 1. */
  const Bag := Draw(12, 13, 14)

  /** `pairs` lists the entries of the map, each once: the order in which
      the `HashMap` happens to be iterated. */
  predicate IsIterationOrder(games: map<nat, seq<Draw>>, pairs: seq<Game>) {
    multiset(pairs) == multiset(ItemsOf(games))
  }

  /** Part 1's term for a game: its id if the bag allows it, else 0. */
  function PossibleId(game: Game): int {
    if ContainsAll(Bag, game.1) then game.0 else 0
  }

  /** `part1`. */
  function Part1(games: map<nat, seq<Draw>>, pairs: seq<Game>): nat
    requires IsIterationOrder(games, pairs)
  {
    var terms := Seqs.Image(PossibleId, pairs);
    Seqs.SumNonNegative(terms);
    Seqs.Sum(terms)
  }

  /** Part 1 does not depend on the iteration order of the map. */
  lemma Part1OrderIndependent(games: map<nat, seq<Draw>>, a: seq<Game>, b: seq<Game>)
    requires IsIterationOrder(games, a) && IsIterationOrder(games, b)
    ensures Part1(games, a) == Part1(games, b)
  {
    Seqs.SumOfImagePermuted(PossibleId, a, b);
  }

  /** Part 2's term for a game: the power of the union of its draws, which
      panics (`reduce` gave `None`) for a game without draws. */
  function MinimumPower(game: Game): Result<nat> {
    match UnionAll(game.1)
    case None => Err(Panic(UnwrapNone))
    case Some(fewest) => Ok(Power(fewest))
  }

  /** `part2`. */
  function Part2(games: map<nat, seq<Draw>>, pairs: seq<Game>): Result<nat>
    requires IsIterationOrder(games, pairs)
  {
    var powers :- MapAll(MinimumPower, pairs);
    Seqs.SumNonNegative(powers);
    Ok(Seqs.Sum(powers))
  }

  /** Part 2 does not depend on the iteration order of the map either, and
      panics exactly when some game has no draws. */
  lemma Part2OrderIndependent(games: map<nat, seq<Draw>>, a: seq<Game>, b: seq<Game>)
    requires IsIterationOrder(games, a) && IsIterationOrder(games, b)
    ensures Part2(games, a) == Part2(games, b)
    ensures Part2(games, a).Ok? <==> forall id :: id in games ==> |games[id]| > 0
  {
    Part2Ok(games, a);
    Part2Ok(games, b);
    if Part2(games, a).Ok? {
      var g := (game: Game) => if |game.1| > 0 then Power(UnionAll(game.1).value) as int else 0;
      var pa := MapAll(MinimumPower, a).value;
      var pb := MapAll(MinimumPower, b).value;
      assert pa == Seqs.Image(g, a);
      assert pb == Seqs.Image(g, b);
      Seqs.SumOfImagePermuted(g, a, b);
    } else {
      var ka: nat :| FirstFailure(MinimumPower, a, ka);
      var kb: nat :| FirstFailure(MinimumPower, b, kb);
      assert MinimumPower(a[ka]) == Err(Panic(UnwrapNone));
      assert MinimumPower(b[kb]) == Err(Panic(UnwrapNone));
    }
  }

  /** Part 2 succeeds exactly when every game of the map has a draw. */
  lemma Part2Ok(games: map<nat, seq<Draw>>, pairs: seq<Game>)
    requires IsIterationOrder(games, pairs)
    ensures Part2(games, pairs).Ok? <==> forall id :: id in games ==> |games[id]| > 0
  {
    if forall id :: id in games ==> |games[id]| > 0 {
      forall k | 0 <= k < |pairs|
        ensures MinimumPower(pairs[k]).Ok?
      {
        assert pairs[k] in multiset(ItemsOf(games));
        var id :| id in games && pairs[k] == (id, games[id]);
      }
    } else {
      var id :| id in games && |games[id]| == 0;
      assert (id, games[id]) in ItemsOf(games);
      assert (id, games[id]) in multiset(pairs);
      var k :| 0 <= k < |pairs| && pairs[k] == (id, games[id]);
      assert MinimumPower(pairs[k]).Err?;
    }
  }

  /** Games read from text always have draws, so part 2 does not panic. */
  lemma ReadThenPart2(input: string, pairs: seq<Game>)
    requires Read(input).Ok? && IsIterationOrder(Read(input).value, pairs)
    ensures Part2(Read(input).value, pairs).Ok?
  {
    var entries := MapAll(ReadGame, Text.Lines(input)).value;
    var games := Read(input).value;
    forall id | id in games
      ensures |games[id]| > 0
    {
      var k :| 0 <= k < |entries| && entries[k] == (id, games[id]);
      ReadGameHasDraws(Text.Lines(input)[k]);
    }
    Part2Ok(games, pairs);
  }

  // ---------------------------------------------------------------------
  // The puzzle's example

  const SampleEntries: seq<Game> := [
    (1, [Draw(4, 0, 3), Draw(1, 2, 6), Draw(0, 2, 0)]),
    (2, [Draw(0, 2, 1), Draw(1, 3, 4), Draw(0, 1, 1)]),
    (3, [Draw(20, 8, 6), Draw(4, 13, 5), Draw(1, 5, 0)]),
    (4, [Draw(3, 1, 6), Draw(6, 3, 0), Draw(14, 3, 15)]),
    (5, [Draw(6, 3, 1), Draw(1, 2, 2)])
  ]

  /** Game ids pairwise distinct, as in a puzzle input. */
  predicate DistinctIds(entries: seq<Game>) {
    forall i, j :: 0 <= i < j < |entries| ==> entries[i].0 != entries[j].0
  }

  /** With distinct ids, part 1 sums over the lines in file order. */
  lemma Part1OfDistinct(entries: seq<Game>, pairs: seq<Game>)
    requires DistinctIds(entries)
    requires IsIterationOrder(GamesOf(entries), pairs)
    ensures Part1(GamesOf(entries), pairs) == Seqs.Sum(Seqs.Image(PossibleId, entries))
  {
    GamesOfDistinct(entries);
    Seqs.SumOfImagePermuted(PossibleId, pairs, entries);
  }

  /** With distinct ids, part 2 sums over the lines in file order. */
  lemma Part2OfDistinct(entries: seq<Game>, pairs: seq<Game>)
    requires DistinctIds(entries)
    requires IsIterationOrder(GamesOf(entries), pairs)
    ensures IsIterationOrder(GamesOf(entries), entries)
    ensures Part2(GamesOf(entries), pairs) == Part2(GamesOf(entries), entries)
    ensures MapAll(MinimumPower, entries).Ok? ==>
      Part2(GamesOf(entries), pairs) == Ok(Seqs.Sum(MapAll(MinimumPower, entries).value))
  {
    GamesOfDistinct(entries);
    Part2OrderIndependent(GamesOf(entries), pairs, entries);
  }

  lemma SampleDistinct(entries: seq<Game>)
    requires entries == SampleEntries
    ensures DistinctIds(entries)
  {
  }

  /** Part 1 of the example is 8 (games 1, 2 and 5), whatever the order. */
  lemma SamplePart1(entries: seq<Game>, pairs: seq<Game>)
    requires entries == SampleEntries
    requires IsIterationOrder(GamesOf(entries), pairs)
    ensures Part1(GamesOf(entries), pairs) == 8
  {
    SampleDistinct(entries);
    Part1OfDistinct(entries, pairs);
    SampleTerms(entries);
  }

  lemma SampleTerms(entries: seq<Game>)
    requires entries == SampleEntries
    ensures Seqs.Sum(Seqs.Image(PossibleId, entries)) == 8
  {
    SamplePossible(entries);
    var terms := Seqs.Image(PossibleId, entries);
    assert terms == [1, 2, 0, 0, 5];
    assert Seqs.Sum([1, 2, 0, 0, 5]) == 8;
  }

  lemma SamplePossible(entries: seq<Game>)
    requires entries == SampleEntries
    ensures PossibleId(entries[0]) == 1 && PossibleId(entries[1]) == 2
    ensures PossibleId(entries[2]) == 0 && PossibleId(entries[3]) == 0
    ensures PossibleId(entries[4]) == 5
  {
    assert entries[2].1[0].red == 20;
    assert entries[3].1[2].red == 14 && entries[3].1[2].blue == 15;
  }

  /** Part 2 of the example is 48 + 12 + 1560 + 630 + 36 = 2286. */
  lemma SamplePart2(entries: seq<Game>, pairs: seq<Game>)
    requires entries == SampleEntries
    requires IsIterationOrder(GamesOf(entries), pairs)
    ensures Part2(GamesOf(entries), pairs) == Ok(2286)
  {
    SampleDistinct(entries);
    Part2OfDistinct(entries, pairs);
    var powers := [48, 12, 1560, 630, 36];
    SampleSumOfPowers(entries, powers);
    assert Seqs.Sum([48, 12, 1560, 630, 36]) == 2286;
  }

  lemma SampleSumOfPowers(entries: seq<Game>, powers: seq<nat>)
    requires entries == SampleEntries && powers == [48, 12, 1560, 630, 36]
    ensures MapAll(MinimumPower, entries) == Ok(powers)
  {
    SamplePowers(entries, powers);
    forall k | 0 <= k < |entries|
      ensures MinimumPower(entries[k]) == Ok(powers[k])
    {
      if k == 0 {} else if k == 1 {} else if k == 2 {} else if k == 3 {} else {}
    }
    MapAllOk(MinimumPower, entries, powers);
  }

  lemma SamplePowers(entries: seq<Game>, powers: seq<nat>)
    requires entries == SampleEntries && powers == [48, 12, 1560, 630, 36]
    ensures MinimumPower(entries[0]) == Ok(powers[0]) && MinimumPower(entries[1]) == Ok(powers[1])
    ensures MinimumPower(entries[2]) == Ok(powers[2]) && MinimumPower(entries[3]) == Ok(powers[3])
    ensures MinimumPower(entries[4]) == Ok(powers[4])
  {
    assert UnionAll(entries[0].1) == Some(Draw(4, 2, 6));
    assert UnionAll(entries[1].1) == Some(Draw(1, 3, 4));
    assert UnionAll(entries[2].1) == Some(Draw(20, 13, 6));
    assert UnionAll(entries[3].1) == Some(Draw(14, 3, 15));
    assert UnionAll(entries[4].1) == Some(Draw(6, 3, 2));
  }
}
