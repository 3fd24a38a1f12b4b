/** The handful of Rust `str` operations the day programs parse their input
    with: `lines`, `split_ascii_whitespace`, `split`, `split_once`, `trim`,
    `strip_prefix`/`strip_suffix` and `usize::from_str`.  Strings are
    sequences of characters; only ASCII whitespace is recognised (the inputs
    are ASCII, where Rust's Unicode `trim` and the ASCII one agree).
 */
module Text {
  import opened Wrappers

  predicate IsAsciiDigit(c: char) {
    '0' <= c <= '9'
  }

  function DigitValue(c: char): (d: nat)
    requires IsAsciiDigit(c)
    ensures d < 10
  {
    c as int - '0' as int
  }

  function DigitChar(d: nat): (c: char)
    requires d < 10
    ensures IsAsciiDigit(c) && DigitValue(c) == d
  {
    ('0' as int + d) as char
  }

  /** Space, tab, line feed, form feed and carriage return. */
  predicate IsAsciiWhitespace(c: char) {
    c == ' ' || c == '\t' || c == '\n' || c == '\r' || c as int == 12
  }

  predicate NoWhitespace(s: string) {
    forall i :: 0 <= i < |s| ==> !IsAsciiWhitespace(s[i])
  }

  predicate AllDigits(s: string) {
    forall i :: 0 <= i < |s| ==> IsAsciiDigit(s[i])
  }

  // ---------------------------------------------------------------------
  // Searching

  /** Index of the first occurrence of `c` in `s`. */
  function Find(s: string, c: char): (r: Option<nat>)
    ensures r.None? ==> c !in s
    ensures r.Some? ==> r.value < |s| && s[r.value] == c && c !in s[..r.value]
  {
    if |s| == 0 then None
    else if s[0] == c then Some(0)
    else
      match Find(s[1..], c)
      case None => None
      case Some(i) =>
        assert s[1..][..i] == s[1..i + 1];
        Some(i + 1)
  }

  /** `str::split_once(c)`: the text before and after the first `c`. */
  function SplitOnce(s: string, c: char): (r: Option<(string, string)>)
    ensures r.None? <==> c !in s
    ensures r.Some? ==> s == r.value.0 + [c] + r.value.1 && c !in r.value.0
  {
    match Find(s, c)
    case None => None
    case Some(i) =>
      assert s == s[..i] + [c] + s[i + 1..];
      Some((s[..i], s[i + 1..]))
  }

  /** `str::split(c)`: every piece between separators, empty ones included. */
  function Split(s: string, c: char): (r: seq<string>)
    ensures |r| >= 1
    ensures forall k :: 0 <= k < |r| ==> c !in r[k]
    decreases |s|
  {
    match SplitOnce(s, c)
    case None => [s]
    case Some((a, b)) => [a] + Split(b, c)
  }

  /** Inverse of `Split`: the pieces glued back with the separator. */
  function Join(pieces: seq<string>, c: char): string
    requires |pieces| >= 1
  {
    if |pieces| == 1 then pieces[0] else pieces[0] + [c] + Join(pieces[1..], c)
  }

  lemma {:induction false} JoinSplit(s: string, c: char)
    ensures Join(Split(s, c), c) == s
    decreases |s|
  {
    match SplitOnce(s, c)
    case None =>
    case Some((a, b)) =>
      JoinSplit(b, c);
  }

  /** The first separator is the one right after a separator-free `a`. */
  lemma SplitOnceAt(a: string, c: char, b: string)
    requires c !in a
    ensures SplitOnce(a + [c] + b, c) == Some((a, b))
  {
    var s := a + [c] + b;
    assert s[..|a|] == a && s[|a|] == c;
    FindFirst(s, c, |a|);
    assert s[|a| + 1..] == b;
  }

  /** Splitting is compatible with gluing two texts at a separator. */
  lemma {:induction false} SplitAppend(a: string, c: char, b: string)
    ensures Split(a + [c] + b, c) == Split(a, c) + Split(b, c)
    decreases |a|
  {
    match SplitOnce(a, c)
    case None =>
      SplitOnceAt(a, c, b);
    case Some((x, y)) =>
      var rest := y + [c] + b;
      assert a + [c] + b == x + [c] + rest;
      SplitOnceAt(x, c, rest);
      assert Split(a + [c] + b, c) == [x] + Split(rest, c);
      SplitAppend(y, c, b);
      assert Split(a, c) == [x] + Split(y, c);
      ConsAppend(x, Split(y, c), Split(b, c));
  }

  lemma ConsAppend<T>(x: T, p: seq<T>, q: seq<T>)
    ensures [x] + (p + q) == [x] + p + q
  {
  }

  /** Inverse of `JoinSplit`: separator-free pieces come back from `Split`. */
  lemma {:induction false} SplitJoin(pieces: seq<string>, c: char)
    requires |pieces| >= 1 && forall k :: 0 <= k < |pieces| ==> c !in pieces[k]
    ensures Split(Join(pieces, c), c) == pieces
  {
    if |pieces| > 1 {
      SplitAppend(pieces[0], c, Join(pieces[1..], c));
      SplitJoin(pieces[1..], c);
      assert pieces == [pieces[0]] + pieces[1..];
    }
  }

  /** A character in none of the pieces, other than the separator, is not in
      their join. */
  lemma {:induction false} NotInJoin(pieces: seq<string>, c: char, x: char)
    requires |pieces| >= 1 && x != c
    requires forall k :: 0 <= k < |pieces| ==> x !in pieces[k]
    ensures x !in Join(pieces, c)
  {
    if |pieces| > 1 {
      NotInJoin(pieces[1..], c, x);
    }
  }

  function StripPrefix(s: string, p: string): (r: Option<string>)
    ensures r.Some? <==> p <= s
    ensures r.Some? ==> s == p + r.value
  {
    if p <= s then
      assert s == p + s[|p|..];
      Some(s[|p|..])
    else None
  }

  function StripSuffix(s: string, p: string): (r: Option<string>)
    ensures r.Some? <==> (|p| <= |s| && s[|s| - |p|..] == p)
    ensures r.Some? ==> s == r.value + p
  {
    if |p| <= |s| && s[|s| - |p|..] == p then
      assert s == s[..|s| - |p|] + s[|s| - |p|..];
      Some(s[..|s| - |p|])
    else None
  }

  // ---------------------------------------------------------------------
  // Trimming

  /** Number of whitespace characters `s` starts with. */
  function LeadingWhitespace(s: string): (n: nat)
    ensures n <= |s|
    ensures forall i :: 0 <= i < n ==> IsAsciiWhitespace(s[i])
    ensures n < |s| ==> !IsAsciiWhitespace(s[n])
  {
    if |s| > 0 && IsAsciiWhitespace(s[0]) then 1 + LeadingWhitespace(s[1..]) else 0
  }

  /** Number of whitespace characters `s` ends with. */
  function TrailingWhitespace(s: string): (n: nat)
    ensures n <= |s|
    ensures forall i :: |s| - n <= i < |s| ==> IsAsciiWhitespace(s[i])
    ensures n < |s| ==> !IsAsciiWhitespace(s[|s| - n - 1])
  {
    if |s| > 0 && IsAsciiWhitespace(s[|s| - 1]) then 1 + TrailingWhitespace(s[..|s| - 1]) else 0
  }

  /** `str::trim`: the slice left after dropping surrounding whitespace. */
  function Trim(s: string): (r: string)
    ensures var i := LeadingWhitespace(s);
      i + |r| <= |s| && r == s[i..i + |r|]
      && forall k :: i + |r| <= k < |s| ==> IsAsciiWhitespace(s[k])
    ensures |r| > 0 ==> !IsAsciiWhitespace(r[0]) && !IsAsciiWhitespace(r[|r| - 1])
    ensures NoWhitespace(s) ==> r == s
  {
    var i := LeadingWhitespace(s);
    var t := s[i..];
    var r := t[..|t| - TrailingWhitespace(t)];
    assert i < |s| ==> !IsAsciiWhitespace(s[0]) ==> i == 0;
    r
  }

  /** Surrounding whitespace is exactly what `trim` removes. */
  lemma TrimPadded(pre: string, w: string, post: string)
    requires forall i :: 0 <= i < |pre| ==> IsAsciiWhitespace(pre[i])
    requires forall i :: 0 <= i < |post| ==> IsAsciiWhitespace(post[i])
    requires |w| > 0 && !IsAsciiWhitespace(w[0]) && !IsAsciiWhitespace(w[|w| - 1])
    ensures Trim(pre + w + post) == w
  {
    var s := pre + w + post;
    LeadingWhitespaceOf(pre, w + post);
    assert s == pre + (w + post);
    var t := s[|pre|..];
    assert t == w + post;
    TrailingWhitespaceOf(w, post);
  }

  lemma {:induction false} LeadingWhitespaceOf(pre: string, rest: string)
    requires forall i :: 0 <= i < |pre| ==> IsAsciiWhitespace(pre[i])
    requires |rest| > 0 && !IsAsciiWhitespace(rest[0])
    ensures LeadingWhitespace(pre + rest) == |pre|
  {
    if |pre| > 0 {
      assert (pre + rest)[1..] == pre[1..] + rest;
      LeadingWhitespaceOf(pre[1..], rest);
    }
  }

  lemma {:induction false} TrailingWhitespaceOf(w: string, post: string)
    requires forall i :: 0 <= i < |post| ==> IsAsciiWhitespace(post[i])
    requires |w| > 0 && !IsAsciiWhitespace(w[|w| - 1])
    ensures TrailingWhitespace(w + post) == |post|
  {
    if |post| > 0 {
      assert (w + post)[..|w + post| - 1] == w + post[..|post| - 1];
      TrailingWhitespaceOf(w, post[..|post| - 1]);
    }
  }

  // ---------------------------------------------------------------------
  // Lines

  /** `str::lines`: split after each line feed, drop a carriage return that
      precedes it, and produce no empty line after a final line feed. */
  function Lines(s: string): (r: seq<string>)
    ensures forall k :: 0 <= k < |r| ==> '\n' !in r[k]
    ensures s == "" <==> r == []
    decreases |s|
  {
    if s == "" then []
    else
      match SplitOnce(s, '\n')
      case None => [s]
      case Some((line, rest)) => [StripCarriageReturn(line)] + Lines(rest)
  }

  function StripCarriageReturn(line: string): (r: string)
    ensures r == line || (line == r + ['\r'])
  {
    if |line| > 0 && line[|line| - 1] == '\r' then line[..|line| - 1] else line
  }

  /** Every line followed by a line feed. */
  function Unlines(ls: seq<string>): string {
    if |ls| == 0 then "" else ls[0] + "\n" + Unlines(ls[1..])
  }

  predicate IsLine(l: string) {
    '\n' !in l && (|l| == 0 || l[|l| - 1] != '\r')
  }

  lemma {:induction false} LinesUnlines(ls: seq<string>)
    requires forall k :: 0 <= k < |ls| ==> IsLine(ls[k])
    ensures Lines(Unlines(ls)) == ls
  {
    if |ls| > 0 {
      var s := Unlines(ls);
      assert s == ls[0] + ['\n'] + Unlines(ls[1..]);
      assert SplitOnce(s, '\n') == Some((ls[0], Unlines(ls[1..]))) by {
        assert s[..|ls[0]|] == ls[0];
        assert s[|ls[0]|] == '\n';
        assert Find(s, '\n') == Some(|ls[0]|) by { FindFirst(s, '\n', |ls[0]|); }
        assert s[|ls[0]| + 1..] == Unlines(ls[1..]);
      }
      LinesUnlines(ls[1..]);
    }
  }

  lemma {:induction false} FindFirst(s: string, c: char, i: nat)
    requires i < |s| && s[i] == c && c !in s[..i]
    ensures Find(s, c) == Some(i)
  {
    if i > 0 {
      assert s[0] in s[..i];
      assert s[1..][..i - 1] == s[1..i];
      assert s[1..][i - 1] == c;
      FindFirst(s[1..], c, i - 1);
    }
  }

  // ---------------------------------------------------------------------
  // Whitespace-separated tokens

  /** Length of the leading run of non-whitespace characters. */
  function WordLength(s: string): (n: nat)
    ensures n <= |s| && NoWhitespace(s[..n])
    ensures n < |s| ==> IsAsciiWhitespace(s[n])
  {
    if |s| == 0 || IsAsciiWhitespace(s[0]) then 0
    else
      var n := 1 + WordLength(s[1..]);
      assert s[..n] == [s[0]] + s[1..][..n - 1];
      n
  }

  /** `str::split_ascii_whitespace`: the maximal non-empty runs of
      non-whitespace characters, in order. */
  function SplitWhitespace(s: string): (r: seq<string>)
    ensures forall k :: 0 <= k < |r| ==> |r[k]| > 0 && NoWhitespace(r[k])
    decreases |s|
  {
    if |s| == 0 then []
    else if IsAsciiWhitespace(s[0]) then SplitWhitespace(s[1..])
    else
      var n := WordLength(s);
      [s[..n]] + SplitWhitespace(s[n..])
  }

  /** The tokens separated by single spaces. */
  function Unwords(ws: seq<string>): string {
    if |ws| == 0 then ""
    else if |ws| == 1 then ws[0]
    else ws[0] + " " + Unwords(ws[1..])
  }

  lemma {:induction false} WordLengthOfWord(w: string, rest: string)
    requires NoWhitespace(w)
    requires |rest| == 0 || IsAsciiWhitespace(rest[0])
    ensures WordLength(w + rest) == |w|
    decreases |w|
  {
    if |w| > 0 {
      assert (w + rest)[1..] == w[1..] + rest;
      WordLengthOfWord(w[1..], rest);
    }
  }

  lemma {:induction false} SplitWhitespaceUnwords(ws: seq<string>)
    requires forall k :: 0 <= k < |ws| ==> |ws[k]| > 0 && NoWhitespace(ws[k])
    ensures SplitWhitespace(Unwords(ws)) == ws
  {
    if |ws| == 1 {
      var w := ws[0];
      WordLengthOfWord(w, "");
      assert w + "" == w;
      assert w[|w|..] == "";
    } else if |ws| > 1 {
      var w := ws[0];
      var rest := " " + Unwords(ws[1..]);
      var s := w + rest;
      assert s == Unwords(ws);
      WordLengthOfWord(w, rest);
      assert s[..|w|] == w;
      assert s[|w|..] == rest;
      assert rest[1..] == Unwords(ws[1..]);
      SplitWhitespaceUnwords(ws[1..]);
    }
  }

  predicate AllWhitespace(s: string) {
    forall i :: 0 <= i < |s| ==> IsAsciiWhitespace(s[i])
  }

  lemma {:induction false} SplitWhitespaceBlank(s: string)
    requires AllWhitespace(s)
    ensures SplitWhitespace(s) == []
  {
    if |s| > 0 {
      SplitWhitespaceBlank(s[1..]);
    }
  }

  /** Leading whitespace is skipped. */
  lemma SplitWhitespaceLead(pre: string, u: string, post: string)
    requires |pre| > 0 && IsAsciiWhitespace(pre[0])
    ensures SplitWhitespace(pre + u + post) == SplitWhitespace(pre[1..] + u + post)
  {
    assert (pre + u + post)[1..] == pre[1..] + u + post;
  }

  /** A word followed by whitespace or nothing is the first token. */
  lemma SplitWhitespaceWord(w: string, rest: string)
    requires |w| > 0 && NoWhitespace(w)
    requires |rest| == 0 || IsAsciiWhitespace(rest[0])
    ensures SplitWhitespace(w + rest) == [w] + SplitWhitespace(rest)
  {
    WordLengthOfWord(w, rest);
    assert (w + rest)[..|w|] == w;
    assert (w + rest)[|w|..] == rest;
  }

  /** Whitespace before and after the words changes nothing. */
  lemma {:induction false} SplitWhitespacePadded(pre: string, ws: seq<string>, post: string)
    requires AllWhitespace(pre) && AllWhitespace(post)
    requires forall k :: 0 <= k < |ws| ==> |ws[k]| > 0 && NoWhitespace(ws[k])
    ensures SplitWhitespace(pre + Unwords(ws) + post) == ws
    decreases |ws|, |pre|
  {
    var s := pre + Unwords(ws) + post;
    if |pre| > 0 {
      SplitWhitespaceLead(pre, Unwords(ws), post);
      SplitWhitespacePadded(pre[1..], ws, post);
    } else if |ws| == 0 {
      assert s == post;
      SplitWhitespaceBlank(post);
    } else if |ws| == 1 {
      var w := ws[0];
      assert s == w + post;
      SplitWhitespaceWord(w, post);
      SplitWhitespaceBlank(post);
    } else {
      var w := ws[0];
      var rest := " " + Unwords(ws[1..]) + post;
      assert s == w + rest;
      SplitWhitespaceWord(w, rest);
      SplitWhitespacePadded(" ", ws[1..], post);
      assert [w] + ws[1..] == ws;
    }
  }

  /** A character that is not a space and in none of the words is not in
      the text they make. */
  lemma {:induction false} NotInUnwords(ws: seq<string>, x: char)
    requires x != ' ' && forall k :: 0 <= k < |ws| ==> x !in ws[k]
    ensures x !in Unwords(ws)
  {
    if |ws| > 1 {
      NotInUnwords(ws[1..], x);
    }
  }

  // ---------------------------------------------------------------------
  // Unsigned decimal numbers

  /** Value of a string of decimal digits, most significant first. */
  function DigitsValue(s: string): nat
    requires AllDigits(s)
  {
    if |s| == 0 then 0 else DigitsValue(s[..|s| - 1]) * 10 + DigitValue(s[|s| - 1])
  }

  /** `usize::from_str`: an optional `+` followed by at least one digit.
      Values that would not fit in 64 bits are not rejected here. */
  function ParseNat(s: string): (r: Option<nat>)
    ensures r.Some? <==> ((|s| > 0 && AllDigits(s)) || (|s| > 1 && s[0] == '+' && AllDigits(s[1..])))
  {
    if |s| > 0 && s[0] == '+' then
      (if |s| > 1 && AllDigits(s[1..]) then Some(DigitsValue(s[1..])) else None)
    else if |s| > 0 && AllDigits(s) then Some(DigitsValue(s))
    else None
  }

  /** Decimal rendering, no leading zeros. */
  function ShowNat(n: nat): (s: string)
    ensures |s| > 0 && AllDigits(s)
  {
    if n < 10 then [DigitChar(n)] else ShowNat(n / 10) + [DigitChar(n % 10)]
  }

  lemma {:induction false} ParseShowNat(n: nat)
    ensures ParseNat(ShowNat(n)) == Some(n)
  {
    DigitsValueShow(n);
  }

  lemma {:induction false} DigitsValueShow(n: nat)
    ensures DigitsValue(ShowNat(n)) == n
  {
    if n >= 10 {
      var s := ShowNat(n);
      assert s[..|s| - 1] == ShowNat(n / 10);
      DigitsValueShow(n / 10);
    }
  }

  // ---------------------------------------------------------------------
  // Signed decimal numbers

  /** `i64::from_str`: an optional `+` or `-` followed by at least one
      digit.  Values that would not fit in 64 bits are not rejected here. */
  function ParseInt(s: string): (r: Option<int>)
    ensures r.Some? <==> (|s| > 0 && AllDigits(s)) || (|s| > 1 && (s[0] == '+' || s[0] == '-') && AllDigits(s[1..]))
  {
    if |s| > 0 && s[0] == '-' then
      (if |s| > 1 && AllDigits(s[1..]) then Some(0 - DigitsValue(s[1..]) as int) else None)
    else
      match ParseNat(s)
      case Some(n) => Some(n)
      case None => None
  }

  /** Decimal rendering with a minus sign for negative numbers. */
  function ShowInt(n: int): (s: string)
    ensures |s| > 0 && NoWhitespace(s)
  {
    var digits := ShowNat(if n < 0 then -n else n);
    assert forall i :: 0 <= i < |digits| ==> IsAsciiDigit(digits[i]);
    if n < 0 then "-" + digits else digits
  }

  lemma ParseShowInt(n: int)
    ensures ParseInt(ShowInt(n)) == Some(n)
  {
    if n < 0 {
      ParseNegative(ShowNat(-n));
      DigitsValueShow(-n);
    } else {
      ParseShowNat(n);
      ParseUnsigned(ShowNat(n));
    }
  }

  lemma ParseNegative(digits: string)
    requires |digits| > 0 && AllDigits(digits)
    ensures ParseInt("-" + digits) == Some(0 - DigitsValue(digits) as int)
  {
    assert ("-" + digits)[1..] == digits;
  }

  lemma ParseUnsigned(digits: string)
    requires |digits| > 0 && AllDigits(digits)
    ensures ParseInt(digits) == ParseNat(digits)
  {
    assert !IsAsciiDigit('-');
  }
}
