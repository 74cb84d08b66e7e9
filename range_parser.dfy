/**
 * parse_range: a page-range string such as "2-5,10,7-9" becomes the page list
 * [2, 3, 4, 5, 10, 7, 8, 9]. Tokens are separated by ',', a token holding '-' is an
 * inclusive ascending run, any other token is one page; nothing is sorted or deduplicated.
 */
module RangeParser {
  import opened Wrappers
  import opened Text

  /** The ValueError that parse_range lets escape. */
  datatype ParseError =
    | InvalidLiteral(text: string)   // int() met a string that is not a numeral
    | TooManyValues(token: string)   // `start, end = ...` unpacked three or more pieces

  /** range(lo, hi): the ascending run lo, lo + 1, ..., hi - 1 (empty when hi <= lo). */
  function Interval(lo: nat, hi: nat): (r: seq<nat>)
    ensures |r| == if hi >= lo then hi - lo else 0
    ensures forall k :: 0 <= k < |r| ==> r[k] == lo + k
    decreases hi - lo
  {
    if hi <= lo then [] else [lo] + Interval(lo + 1, hi)
  }

  /** One comma-separated token. For "a-b" the unpacking `start, end = map(int, pieces)`
      converts the pieces one after the other and asks for a third before it complains,
      so an unreadable piece is reported before a surplus one. */
  function ParseToken(part: string): Result<seq<nat>, ParseError>
  {
    if '-' in part then
      var pieces := Split(part, '-');
      match ParseInt(pieces[0])
      case None => Err(InvalidLiteral(pieces[0]))
      case Some(start) =>
        match ParseInt(pieces[1])
        case None => Err(InvalidLiteral(pieces[1]))
        case Some(end) =>
          if |pieces| == 2 then Ok(Interval(start, end + 1))
          else if ParseInt(pieces[2]).None? then Err(InvalidLiteral(pieces[2]))
          else Err(TooManyValues(part))
    else
      match ParseInt(Strip(part))
      case None => Err(InvalidLiteral(Strip(part)))
      case Some(n) => Ok([n])
  }

  /** The tokens in order, their pages concatenated; the first bad token decides the error. */
  function ParseTokens(parts: seq<string>): Result<seq<nat>, ParseError>
  {
    if parts == [] then Ok([])
    else
      match ParseToken(parts[0])
      case Err(e) => Err(e)
      case Ok(first) => Prefixed(first, ParseTokens(parts[1..]))
  }

  /** Put pages in front of a successful result; an error passes through. */
  function Prefixed(pages: seq<nat>, r: Result<seq<nat>, ParseError>): Result<seq<nat>, ParseError>
  {
    match r
    case Ok(rest) => Ok(pages + rest)
    case Err(e) => Err(e)
  }

  lemma PrefixedNothing(r: Result<seq<nat>, ParseError>)
    ensures Prefixed([], r) == r
  {
    if r.Ok? {
      assert [] + r.value == r.value;
    }
  }

  lemma PrefixedTwice(a: seq<nat>, b: seq<nat>, r: Result<seq<nat>, ParseError>)
    ensures Prefixed(a, Prefixed(b, r)) == Prefixed(a + b, r)
  {
    if r.Ok? {
      assert a + (b + r.value) == (a + b) + r.value;
    }
  }

  /** What parse_range(rangeStr) returns or raises. */
  function Parse(rangeStr: string): Result<seq<nat>, ParseError>
  {
    ParseTokens(Split(rangeStr, ','))
  }

  /** parse_range as the script runs it: one pass over the tokens, extending a list with each
      token's pages and stopping at the first token that raises. */
  method ParseRange(rangeStr: string) returns (r: Result<seq<nat>, ParseError>)
    ensures r == Parse(rangeStr)
  {
    var parts := Split(rangeStr, ',');
    var pages: seq<nat> := [];
    var i := 0;
    assert parts[0..] == parts;
    PrefixedNothing(ParseTokens(parts));
    while i < |parts|
      invariant 0 <= i <= |parts|
      invariant ParseTokens(parts) == Prefixed(pages, ParseTokens(parts[i..]))
    {
      var token := ParseToken(parts[i]);
      ParseTokensAt(parts, i);
      if token.Err? {
        return Err(token.error);
      }
      PrefixedTwice(pages, token.value, ParseTokens(parts[i + 1..]));
      pages := pages + token.value;
      i := i + 1;
    }
    assert parts[i..] == [];
    assert pages + [] == pages;
    return Ok(pages);
  }

  /** The tokens from i on: token i, then the tokens after it. */
  lemma ParseTokensAt(parts: seq<string>, i: nat)
    requires i < |parts|
    ensures ParseToken(parts[i]).Err? ==> ParseTokens(parts[i..]) == Err(ParseToken(parts[i]).error)
    ensures ParseToken(parts[i]).Ok? ==> ParseTokens(parts[i..]) == Prefixed(ParseToken(parts[i]).value, ParseTokens(parts[i + 1..]))
  {
    assert parts[i..][0] == parts[i];
    assert parts[i..][1..] == parts[i + 1..];
  }

  /** Parsing a list of tokens is parsing its two halves in order; the first error wins. */
  lemma {:induction false} ParseTokensAppend(a: seq<string>, b: seq<string>)
    ensures ParseTokens(a + b) == if ParseTokens(a).Err? then ParseTokens(a) else Prefixed(ParseTokens(a).value, ParseTokens(b))
  {
    if a == [] {
      assert a + b == b;
      PrefixedNothing(ParseTokens(b));
    } else {
      assert (a + b)[1..] == a[1..] + b;
      ParseTokensAppend(a[1..], b);
      var t := ParseToken(a[0]);
      if t.Ok? && ParseTokens(a[1..]).Ok? {
        PrefixedTwice(t.value, ParseTokens(a[1..]).value, ParseTokens(b));
      }
    }
  }

  /** Token order is kept: the pages of "s,t" are the pages of s followed by those of t,
      with no sorting or deduplication, and an error in s is reported before one in t. */
  lemma ParseConcat(s: string, t: string)
    ensures Parse(s + "," + t) == if Parse(s).Err? then Parse(s) else Prefixed(Parse(s).value, Parse(t))
  {
    SplitAppend(s, t, ',');
    ParseTokensAppend(Split(s, ','), Split(t, ','));
  }

  /** A list of tokens parses exactly when each of its tokens does. */
  lemma {:induction false} ParseTokensOkIff(parts: seq<string>)
    ensures ParseTokens(parts).Ok? <==> forall k :: 0 <= k < |parts| ==> ParseToken(parts[k]).Ok?
  {
    if parts != [] {
      ParseTokensOkIff(parts[1..]);
      assert forall k :: 1 <= k < |parts| ==> parts[k] == parts[1..][k - 1];
    }
  }

  /** parse_range raises exactly when one of its comma-separated tokens is malformed. */
  lemma ParseOkIff(rangeStr: string)
    ensures var parts := Split(rangeStr, ',');
      Parse(rangeStr).Ok? <==> forall k :: 0 <= k < |parts| ==> ParseToken(parts[k]).Ok?
  {
    ParseTokensOkIff(Split(rangeStr, ','));
    assert Parse(rangeStr) == ParseTokens(Split(rangeStr, ','));
  }

  /** How many pages a well-formed token contributes: end - start + 1 for a run (none when
      start > end), one for a single page. */
  function Width(part: string): nat
  {
    if '-' in part then
      var pieces := Split(part, '-');
      match (ParseInt(pieces[0]), ParseInt(pieces[1]))
      case (Some(start), Some(end)) => if end >= start then end - start + 1 else 0
      case _ => 0
    else 1
  }

  function SumWidths(parts: seq<string>): nat
  {
    if parts == [] then 0 else Width(parts[0]) + SumWidths(parts[1..])
  }

  /** The number of pages is the sum of the token widths. */
  lemma {:induction false} ParseTokensLength(parts: seq<string>)
    requires ParseTokens(parts).Ok?
    ensures |ParseTokens(parts).value| == SumWidths(parts)
  {
    if parts != [] {
      ParseTokensLength(parts[1..]);
    }
  }

  lemma ParseLength(rangeStr: string)
    requires Parse(rangeStr).Ok?
    ensures |Parse(rangeStr).value| == SumWidths(Split(rangeStr, ','))
  {
    ParseTokensLength(Split(rangeStr, ','));
    assert Parse(rangeStr) == ParseTokens(Split(rangeStr, ','));
  }

  lemma DecimalHasNoSeparator(n: nat, c: char)
    requires !IsDigit(c)
    ensures c !in Decimal(n)
  {
  }

  /** A string without a comma is a single token. */
  lemma OneToken(s: string)
    requires ',' !in s
    ensures Parse(s) == ParseToken(s)
  {
    var parts := Split(s, ',');
    assert parts == [s];
    assert parts[1..] == [];
    assert ParseTokens(parts[1..]) == Ok([]);
    match ParseToken(s)
    case Err(_) =>
    case Ok(v) => assert v + [] == v;
  }

  /** A lone number is one page. */
  lemma SinglePage(n: nat)
    ensures Parse(Decimal(n)) == Ok([n])
  {
    var s := Decimal(n);
    DecimalHasNoSeparator(n, ',');
    DecimalHasNoSeparator(n, '-');
    OneToken(s);
    StripUnchanged(s);
    DecimalParses(n);
  }

  /** A token "x-y" whose sides read as numbers a and b is the run a..b. */
  lemma RunToken(x: string, y: string, a: nat, b: nat)
    requires '-' !in x && '-' !in y
    requires ParseInt(x) == Some(a) && ParseInt(y) == Some(b)
    ensures ParseToken(x + "-" + y) == Ok(Interval(a, b + 1))
  {
    var s := x + "-" + y;
    assert s[|x|] == '-';
    assert Join([x, y], "-") == s;
    JoinThenSplit([x, y], '-');
    assert '-' in s;
    TwoPieces(s, x, y, a, b);
  }

  /** A token that splits into exactly two readable pieces is their run. */
  lemma TwoPieces(part: string, x: string, y: string, a: nat, b: nat)
    requires '-' in part && Split(part, '-') == [x, y]
    requires ParseInt(x) == Some(a) && ParseInt(y) == Some(b)
    ensures ParseToken(part) == Ok(Interval(a, b + 1))
  {
  }

  /** "a-b" is the inclusive ascending run a, a + 1, ..., b; when a > b it is empty, not an error. */
  lemma PageRun(a: nat, b: nat)
    ensures Parse(Decimal(a) + "-" + Decimal(b)).Ok?
    ensures |Parse(Decimal(a) + "-" + Decimal(b)).value| == (if b >= a then b - a + 1 else 0)
    ensures forall k :: 0 <= k < |Parse(Decimal(a) + "-" + Decimal(b)).value| ==>
      Parse(Decimal(a) + "-" + Decimal(b)).value[k] == a + k
  {
    var x, y := Decimal(a), Decimal(b);
    DecimalHasNoSeparator(a, ',');
    DecimalHasNoSeparator(b, ',');
    DecimalHasNoSeparator(a, '-');
    DecimalHasNoSeparator(b, '-');
    assert ',' !in x + "-" + y;
    OneToken(x + "-" + y);
    DecimalParses(a);
    DecimalParses(b);
    RunToken(x, y, a, b);
  }

  /** A token with two or more '-' always raises: either a piece is not a numeral or there
      are too many values to unpack ("1-2-3", "-3", "1--2"). */
  lemma ManyDashesRaise(part: string)
    requires Count(part, '-') >= 2
    ensures ParseToken(part).Err?
  {
    CountZero(part, '-');
  }

  /** A token beginning with '-' has an empty first piece, which int() refuses. */
  lemma LeadingDashRaises(part: string)
    requires |part| > 0 && part[0] == '-'
    ensures ParseToken(part) == Err(InvalidLiteral(""))
  {
    FirstIndexUnique(part, '-', 0);
    assert Split(part, '-')[0] == [];
    assert Strip([]) == [];
  }

  /** An empty or blank token (a trailing comma, ",,") raises. */
  lemma BlankTokenRaises(part: string)
    requires Strip(part) == []
    ensures ParseToken(part) == Err(InvalidLiteral(""))
  {
    BlankIffAllSpace(part);
    assert forall c :: c in part ==> IsSpace(c);
    assert '-' !in part;
    assert ParseInt([]) == None;
  }

  /** One malformed token makes the whole string raise. */
  lemma MalformedTokenRaises(rangeStr: string, k: nat)
    requires k < |Split(rangeStr, ',')| && ParseToken(Split(rangeStr, ',')[k]).Err?
    ensures Parse(rangeStr).Err?
  {
    ParseOkIff(rangeStr);
  }

  /** A trailing comma leaves an empty last token, so the string raises. */
  lemma TrailingCommaRaises(rangeStr: string)
    ensures Parse(rangeStr + ",").Err?
  {
    assert rangeStr + "," == rangeStr + "," + "";
    ParseConcat(rangeStr, "");
    assert Split("", ',') == [""];
    BlankTokenRaises("");
  }

  /** Three tokens that parse, joined by commas, give their pages in order. */
  lemma ThreeTokens(a: string, b: string, c: string, s: string, ra: seq<nat>, rb: seq<nat>, rc: seq<nat>, r: seq<nat>)
    requires s == a + "," + b + "," + c && r == ra + rb + rc
    requires Parse(a) == Ok(ra) && Parse(b) == Ok(rb) && Parse(c) == Ok(rc)
    ensures Parse(s) == Ok(r)
  {
    ParseConcat(a, b);
    ParseConcat(a + "," + b, c);
  }

  /** The run a..b, stated for a token already written out. */
  lemma RunLiteral(a: nat, b: nat, s: string, r: seq<nat>)
    requires s == Decimal(a) + "-" + Decimal(b)
    requires |r| == b - a + 1 && forall k :: 0 <= k < |r| ==> r[k] == a + k
    ensures Parse(s) == Ok(r)
  {
    PageRun(a, b);
    var v := Parse(s).value;
    assert |v| == |r|;
    assert forall k :: 0 <= k < |r| ==> v[k] == r[k];
    assert v == r;
  }

  lemma ExampleFirst()
    ensures Parse("2-5") == Ok([2, 3, 4, 5])
  {
    RunLiteral(2, 5, "2-5", [2, 3, 4, 5]);
  }

  lemma ExampleMiddle()
    ensures Parse("10") == Ok([10])
  {
    SinglePage(10);
    assert Decimal(10) == "10";
  }

  lemma ExampleLast()
    ensures Parse("7-9") == Ok([7, 8, 9])
  {
    RunLiteral(7, 9, "7-9", [7, 8, 9]);
  }

  /** The docstring's string and list, piece by piece. */
  lemma ExamplePieces()
    ensures "2-5" + "," + "10" + "," + "7-9" == "2-5,10,7-9"
    ensures [2, 3, 4, 5] + [10] + [7, 8, 9] == [2, 3, 4, 5, 10, 7, 8, 9]
  {
  }

  /** The example in parse_range's docstring. */
  lemma DocstringExample()
    ensures Parse("2-5,10,7-9") == Ok([2, 3, 4, 5, 10, 7, 8, 9])
  {
    ExampleFirst();
    ExampleMiddle();
    ExampleLast();
    ExamplePieces();
    ThreeTokens("2-5", "10", "7-9", "2-5,10,7-9", [2, 3, 4, 5], [10], [7, 8, 9], [2, 3, 4, 5, 10, 7, 8, 9]);
  }

  /** "5-2": a reversed run is accepted and contributes no pages. */
  lemma ReversedRunExample()
    ensures Parse("5-2") == Ok([])
  {
    PageRun(5, 2);
    assert Decimal(5) + "-" + Decimal(2) == "5-2";
  }

  /** "a-3": int() refuses the left side, and that side is what the error names. */
  lemma LetterSideExample()
    ensures Parse("a-3") == Err(InvalidLiteral("a"))
  {
    OneToken("a-3");
    SplitLetterExample();
    assert ParseInt("a") == None;
    StartUnreadable("a-3", "a");
  }

  lemma SplitLetterExample()
    ensures '-' in "a-3" && Split("a-3", '-')[0] == "a"
  {
    assert Join(["a", "3"], "-") == "a-3";
    JoinThenSplit(["a", "3"], '-');
  }

  /** A run token whose start int() refuses raises on that start, whatever follows it. */
  lemma StartUnreadable(part: string, x: string)
    requires '-' in part && Split(part, '-')[0] == x && ParseInt(x).None?
    ensures ParseToken(part) == Err(InvalidLiteral(x))
  {
  }

  /** A run token with a readable start and an end int() refuses raises on that end ("3-a",
      "3-"), whether or not more pieces follow. */
  lemma EndUnreadable(part: string, x: string, y: string)
    requires '-' in part && Split(part, '-')[0] == x && Split(part, '-')[1] == y
    requires ParseInt(x).Some? && ParseInt(y).None?
    ensures ParseToken(part) == Err(InvalidLiteral(y))
  {
  }

  /** A token without '-' is one page when int() reads it after strip(), and raises on the
      stripped text otherwise ("abc", "1.5"). */
  lemma SingleToken(part: string)
    requires '-' !in part
    ensures ParseInt(Strip(part)).Some? ==> ParseToken(part) == Ok([ParseInt(Strip(part)).value])
    ensures ParseInt(Strip(part)).None? ==> ParseToken(part) == Err(InvalidLiteral(Strip(part)))
  {
  }

  /** Exactly when a token parses: a run token needs two pieces int() reads, any other token a
      stripped text int() reads. */
  lemma ParseTokenOkIff(part: string)
    ensures ParseToken(part).Ok? <==>
      if '-' in part then
        |Split(part, '-')| == 2 && ParseInt(Split(part, '-')[0]).Some? && ParseInt(Split(part, '-')[1]).Some?
      else
        ParseInt(Strip(part)).Some?
  {
    if '-' in part {
      var pieces := Split(part, '-');
      if ParseInt(pieces[0]).Some? && ParseInt(pieces[1]).Some? && |pieces| != 2 {
        assert ParseToken(part).Err?;
      }
    }
  }

  /** "3-a" raises on its end "a". */
  lemma EndLetterExample()
    ensures Parse("3-a") == Err(InvalidLiteral("a"))
  {
    OneToken("3-a");
    SplitEndLetterExample();
    EndLetterSides();
    EndUnreadable("3-a", "3", "a");
  }

  lemma EndLetterSides()
    ensures ParseInt("3").Some? && ParseInt("a").None?
  {
    assert Decimal(3) == "3";
    DecimalParses(3);
    assert ParseInt("a") == None;
  }

  lemma SplitEndLetterExample()
    ensures '-' in "3-a" && Split("3-a", '-')[0] == "3" && Split("3-a", '-')[1] == "a"
  {
    assert Join(["3", "a"], "-") == "3-a";
    JoinThenSplit(["3", "a"], '-');
  }

  /** "abc", a token without '-', raises on the whole word. */
  lemma WordExample()
    ensures Parse("abc") == Err(InvalidLiteral("abc"))
  {
    OneToken("abc");
    StripUnchanged("abc");
    assert TrimIntEnd("abc") == "abc";
    assert !IsNumeral("abc");
    SingleToken("abc");
  }

  /** "2\x1c-5": the stripped line keeps the inner separator U+001C, which int() does not
      skip, so the start is refused although strip() would have removed that character. */
  lemma SeparatorSideExample()
    ensures Parse("2\U{1C}-5") == Err(InvalidLiteral("2\U{1C}"))
  {
    OneToken("2\U{1C}-5");
    SplitSeparatorExample();
    SeparatorNotSkipped();
    StartUnreadable("2\U{1C}-5", "2\U{1C}");
  }

  lemma SplitSeparatorExample()
    ensures '-' in "2\U{1C}-5" && Split("2\U{1C}-5", '-')[0] == "2\U{1C}"
  {
    assert Join(["2\U{1C}", "5"], "-") == "2\U{1C}-5";
    JoinThenSplit(["2\U{1C}", "5"], '-');
  }

  /** Three readable pieces: every piece is converted, then the unpacking finds a third value. */
  lemma ThreePieces(part: string, x: string, y: string, z: string, a: nat, b: nat, c: nat)
    requires '-' in part && Split(part, '-') == [x, y, z]
    requires ParseInt(x) == Some(a) && ParseInt(y) == Some(b) && ParseInt(z) == Some(c)
    ensures ParseToken(part) == Err(TooManyValues(part))
  {
  }

  lemma SplitOneTwoThree()
    ensures Split("1-2-3", '-') == ["1", "2", "3"]
  {
    assert Join(["1", "2", "3"], "-") == "1-2-3";
    JoinThenSplit(["1", "2", "3"], '-');
  }

  /** "1-2-3": too many values to unpack. */
  lemma ThreeValuesExample()
    ensures Parse("1-2-3") == Err(TooManyValues("1-2-3"))
  {
    OneToken("1-2-3");
    SplitOneTwoThree();
    assert Decimal(1) == "1" && Decimal(2) == "2" && Decimal(3) == "3";
    DecimalParses(1);
    DecimalParses(2);
    DecimalParses(3);
    ThreePieces("1-2-3", "1", "2", "3", 1, 2, 3);
  }

  /** "-3": a negative number is read as a run with an empty start, which int() refuses. */
  lemma NegativeExample()
    ensures Parse("-3") == Err(InvalidLiteral(""))
  {
    OneToken("-3");
    LeadingDashRaises("-3");
  }
}
