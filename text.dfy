/**
 * The string builtins the batch script relies on, written out:
 * str.strip(), str.split(c), sep.join(parts), str(n), f"{n:02d}" and int(s).
 */
module Text {
  import opened Wrappers

  /** The code points Python's str.isspace() accepts, as ascending ranges with both ends included. */
  const SpaceRanges: seq<(int, int)> := [
    (0x09, 0x0D),      // \t \n \v \f \r
    (0x1C, 0x20),      // file, group, record and unit separators, space
    (0x85, 0x85), (0xA0, 0xA0), (0x1680, 0x1680), (0x2000, 0x200A),
    (0x2028, 0x2029), (0x202F, 0x202F), (0x205F, 0x205F), (0x3000, 0x3000)]

  /** n lies in one of the ascending ranges; the search stops at the first range above n. */
  predicate InRanges(n: int, ranges: seq<(int, int)>)
    decreases |ranges|
  {
    ranges != [] && ranges[0].0 <= n && (n <= ranges[0].1 || InRanges(n, ranges[1..]))
  }

  /** Python's str.isspace(): the characters strip() removes. */
  predicate IsSpace(c: char)
  {
    InRanges(c as int, SpaceRanges)
  }

  /** Digits are not whitespace. */
  lemma DigitNotSpace(c: char)
    requires IsDigit(c)
    ensures !IsSpace(c)
  {
    assert SpaceRanges[2..][0].0 == 0x85;
    assert !InRanges(c as int, SpaceRanges[2..]);
  }

  /** The whitespace int() skips around a numeral: CPython keeps every ASCII character as it
      is and skips only tab, line feed, vertical tab, form feed, carriage return and space,
      while every non-ASCII isspace() character counts as a space. The four ASCII separators
      U+001C..U+001F, which strip() removes, are therefore not skipped by int(). */
  predicate IsIntSpace(c: char)
  {
    IsSpace(c) && !(0x1C <= c as int <= 0x1F)
  }

  function TrimStart(s: string): (r: string)
    ensures |r| <= |s| && r == s[|s| - |r|..]
    ensures forall k :: 0 <= k < |s| - |r| ==> IsSpace(s[k])
    ensures r != [] ==> !IsSpace(r[0])
  {
    if s != [] && IsSpace(s[0]) then
      var r := TrimStart(s[1..]);
      assert s[1..][|s| - 1 - |r|..] == s[|s| - |r|..];
      assert forall k :: 1 <= k < |s| - |r| ==> s[k] == s[1..][k - 1];
      r
    else s
  }

  function TrimEnd(s: string): (r: string)
    ensures |r| <= |s| && r == s[..|r|]
    ensures forall k :: |r| <= k < |s| ==> IsSpace(s[k])
    ensures r != [] ==> !IsSpace(r[|r| - 1])
  {
    if s != [] && IsSpace(s[|s| - 1]) then
      var r := TrimEnd(s[..|s| - 1]);
      assert s[..|s| - 1][..|r|] == s[..|r|];
      assert forall k :: |r| <= k < |s| - 1 ==> s[k] == s[..|s| - 1][k];
      r
    else s
  }

  /** str.strip(): drop leading and trailing whitespace. */
  function Strip(s: string): (r: string)
  {
    TrimEnd(TrimStart(s))
  }

  /** What strip() keeps: a slice of s with no whitespace at either end, and only
      whitespace was dropped before and after it. */
  lemma StripSpec(s: string)
    ensures |Strip(s)| <= |s|
    ensures Strip(s) != [] ==> !IsSpace(Strip(s)[0]) && !IsSpace(Strip(s)[|Strip(s)| - 1])
    ensures Strip(s) == s[|s| - |TrimStart(s)|..|s| - |TrimStart(s)| + |Strip(s)|]
    ensures forall k :: 0 <= k < |s| - |TrimStart(s)| ==> IsSpace(s[k])
    ensures forall k :: |s| - |TrimStart(s)| + |Strip(s)| <= k < |s| ==> IsSpace(s[k])
  {
    StripSlice(s);
    StripTail(s);
  }

  /** What strip() keeps is one slice of s. */
  lemma StripSlice(s: string)
    ensures Strip(s) == s[|s| - |TrimStart(s)|..|s| - |TrimStart(s)| + |Strip(s)|]
  {
  }

  /** What strip() drops after the slice it keeps is whitespace. */
  lemma StripTail(s: string)
    ensures forall k :: |s| - |TrimStart(s)| + |Strip(s)| <= k < |s| ==> IsSpace(s[k])
  {
    TrimmedSlice(s, TrimStart(s), Strip(s));
  }

  /** Cutting whitespace off the end of a suffix t of s keeps a slice of s, and what is cut
      off is whitespace of s. */
  lemma TrimmedSlice(s: string, t: string, r: string)
    requires |t| <= |s| && t == s[|s| - |t|..]
    requires |r| <= |t| && r == t[..|r|]
    requires forall k :: |r| <= k < |t| ==> IsSpace(t[k])
    ensures r == s[|s| - |t|..|s| - |t| + |r|]
    ensures forall k :: |s| - |t| + |r| <= k < |s| ==> IsSpace(s[k])
  {
    var i := |s| - |t|;
    forall k | i + |r| <= k < |s| ensures IsSpace(s[k]) {
      assert s[k] == t[k - i];
    }
  }

  /** A string with no whitespace at its ends is left as it is. */
  lemma StripUnchanged(s: string)
    requires s != [] ==> !IsSpace(s[0]) && !IsSpace(s[|s| - 1])
    ensures Strip(s) == s
  {
  }

  /** strip() is idempotent. */
  lemma StripIdempotent(s: string)
    ensures Strip(Strip(s)) == Strip(s)
  {
    StripSpec(s);
    StripUnchanged(Strip(s));
  }

  /** A line is blank exactly when every one of its characters is whitespace. */
  lemma BlankIffAllSpace(s: string)
    ensures Strip(s) == [] <==> forall k :: 0 <= k < |s| ==> IsSpace(s[k])
  {
    StripSpec(s);
    if forall k :: 0 <= k < |s| ==> IsSpace(s[k]) {
      assert TrimStart(s) == [];
    }
  }

  /** Index of the first occurrence of c. */
  function FirstIndex(s: string, c: char): (k: nat)
    requires c in s
    ensures k < |s| && s[k] == c && c !in s[..k]
  {
    if s[0] == c then 0
    else
      var k := 1 + FirstIndex(s[1..], c);
      assert s[..k] == [s[0]] + s[1..][..k - 1];
      k
  }

  /** Any index holding c with no c before it is the first index. */
  lemma FirstIndexUnique(s: string, c: char, k: nat)
    requires k < |s| && s[k] == c && c !in s[..k]
    ensures FirstIndex(s, c) == k
  {
  }

  /** Number of occurrences of c in s. */
  function Count(s: string, c: char): nat
  {
    if s == [] then 0 else (if s[0] == c then 1 else 0) + Count(s[1..], c)
  }

  /** c is absent exactly when it occurs zero times. */
  lemma {:induction false} CountZero(s: string, c: char)
    ensures Count(s, c) == 0 <==> c !in s
  {
    if s != [] {
      CountZero(s[1..], c);
      assert s == [s[0]] + s[1..];
    }
  }

  /** Occurrences in a concatenation add up. */
  lemma {:induction false} CountAppend(s: string, t: string, c: char)
    ensures Count(s + t, c) == Count(s, c) + Count(t, c)
  {
    if s != [] {
      CountAppend(s[1..], t, c);
      assert (s + t)[0] == s[0];
      assert (s + t)[1..] == s[1..] + t;
    } else {
      assert s + t == t;
    }
  }

  /** str.split(sep) for a one-character separator: one more piece than there are separators,
      empty pieces included, and no piece holds the separator. */
  function Split(s: string, sep: char): (parts: seq<string>)
    ensures |parts| == Count(s, sep) + 1
    ensures forall k :: 0 <= k < |parts| ==> sep !in parts[k]
    decreases |s|
  {
    if sep in s then
      var k := FirstIndex(s, sep);
      assert s == s[..k] + [sep] + s[k + 1..];
      CountZero(s[..k], sep);
      CountAppend(s[..k] + [sep], s[k + 1..], sep);
      CountAppend(s[..k], [sep], sep);
      [s[..k]] + Split(s[k + 1..], sep)
    else
      CountZero(s, sep);
      [s]
  }

  /** sep.join(parts). */
  function Join(parts: seq<string>, sep: string): string
  {
    if parts == [] then []
    else if |parts| == 1 then parts[0]
    else parts[0] + sep + Join(parts[1..], sep)
  }

  /** Joining the pieces of a split with the same separator gives the original string back. */
  lemma {:induction false} SplitThenJoin(s: string, sep: char)
    ensures Join(Split(s, sep), [sep]) == s
    decreases |s|
  {
    if sep in s {
      var k := FirstIndex(s, sep);
      SplitThenJoin(s[k + 1..], sep);
      assert s == s[..k] + [sep] + s[k + 1..];
    }
  }

  /** Splitting a join recovers the pieces, provided none of them holds the separator. */
  lemma {:induction false} JoinThenSplit(parts: seq<string>, sep: char)
    requires |parts| >= 1
    requires forall k :: 0 <= k < |parts| ==> sep !in parts[k]
    ensures Split(Join(parts, [sep]), sep) == parts
  {
    if |parts| > 1 {
      var s := Join(parts, [sep]);
      JoinThenSplit(parts[1..], sep);
      assert s == parts[0] + [sep] + Join(parts[1..], [sep]);
      assert s[|parts[0]|] == sep;
      assert s[..|parts[0]|] == parts[0];
      FirstIndexUnique(s, sep, |parts[0]|);
      assert s[|parts[0]| + 1..] == Join(parts[1..], [sep]);
    } else {
      assert Join(parts, [sep]) == parts[0];
    }
  }

  /** The first separator of s, at k, ends the first piece. */
  lemma SplitAt(s: string, sep: char, k: nat)
    requires k < |s| && s[k] == sep && sep !in s[..k]
    ensures Split(s, sep) == [s[..k]] + Split(s[k + 1..], sep)
  {
    FirstIndexUnique(s, sep, k);
  }

  /** Splitting at one more separator splits both sides independently, in order. */
  lemma {:induction false} SplitAppend(s: string, t: string, sep: char)
    ensures Split(s + [sep] + t, sep) == Split(s, sep) + Split(t, sep)
    decreases |s|
  {
    var u := s + [sep] + t;
    if sep in s {
      var k := FirstIndex(s, sep);
      assert u[..k] == s[..k];
      SplitAt(u, sep, k);
      SplitAt(s, sep, k);
      assert u[k + 1..] == s[k + 1..] + [sep] + t;
      SplitAppend(s[k + 1..], t, sep);
      PiecesAssoc([s[..k]], Split(s[k + 1..], sep), Split(t, sep));
    } else {
      assert u[..|s|] == s;
      SplitAt(u, sep, |s|);
      assert u[|s| + 1..] == t;
    }
  }

  lemma PiecesAssoc(a: seq<string>, b: seq<string>, c: seq<string>)
    ensures a + (b + c) == (a + b) + c
  {
  }

  predicate IsDigit(c: char)
  {
    '0' <= c <= '9'
  }

  function DigitChar(d: nat): (c: char)
    requires d < 10
    ensures IsDigit(c)
  {
    ('0' as int + d) as char
  }

  function DigitValue(c: char): (d: nat)
    requires IsDigit(c)
    ensures d < 10
  {
    c as int - '0' as int
  }

  predicate DigitsOrUnderscores(s: string)
  {
    forall k :: 0 <= k < |s| ==> IsDigit(s[k]) || s[k] == '_'
  }

  /** Value of the digits of a numeral; an underscore separates digit groups and adds nothing. */
  function Value(s: string): nat
    requires DigitsOrUnderscores(s)
  {
    if s == [] then 0
    else if s[|s| - 1] == '_' then Value(s[..|s| - 1])
    else Value(s[..|s| - 1]) * 10 + DigitValue(s[|s| - 1])
  }

  /** str(n) for a non-negative integer: decimal digits, no leading zero. */
  function Decimal(n: nat): (s: string)
    ensures 1 <= |s|
    ensures forall k :: 0 <= k < |s| ==> IsDigit(s[k])
    ensures |s| == 1 <==> n < 10
  {
    if n < 10 then [DigitChar(n)] else Decimal(n / 10) + [DigitChar(n % 10)]
  }

  /** Reading the decimal form of n gives n back. */
  lemma {:induction false} DecimalValue(n: nat)
    ensures Value(Decimal(n)) == n
  {
    if n >= 10 {
      DecimalValue(n / 10);
      var s := Decimal(n);
      assert s[..|s| - 1] == Decimal(n / 10);
    }
  }

  /** f"{n:02d}": at least two digits, zero-padded on the left, never truncated. */
  function Pad2(n: nat): string
  {
    if n < 10 then "0" + Decimal(n) else Decimal(n)
  }

  /** Python's int(s) in base 10 for the strings this script hands it: surrounding whitespace
      (in the sense of IsIntSpace), an optional '+', and ASCII digits with single underscores
      between them. Leading whitespace is skipped one character at a time. */
  function ParseInt(text: string): Option<nat>
    decreases |text|
  {
    if text != [] && IsIntSpace(text[0]) then ParseInt(text[1..]) else ParseUnsigned(TrimIntEnd(text))
  }

  /** The trailing whitespace int() skips, cut off. */
  function TrimIntEnd(s: string): (r: string)
    ensures |r| <= |s| && r == s[..|r|]
    ensures forall k :: |r| <= k < |s| ==> IsIntSpace(s[k])
    ensures r != [] ==> !IsIntSpace(r[|r| - 1])
  {
    if s != [] && IsIntSpace(s[|s| - 1]) then
      var r := TrimIntEnd(s[..|s| - 1]);
      assert s[..|s| - 1][..|r|] == s[..|r|];
      assert forall k :: |r| <= k < |s| - 1 ==> s[k] == s[..|s| - 1][k];
      r
    else s
  }

  /** int() on text already stripped: an optional '+' and then a numeral. */
  function ParseUnsigned(t: string): Option<nat>
  {
    var body := if |t| > 0 && t[0] == '+' then t[1..] else t;
    if IsNumeral(body) then NumeralChars(body); Some(Value(body)) else None
  }

  /** int() reads a numeral t the same with any whitespace it skips before and after it. */
  lemma {:induction false} ParseIntStrips(before: string, t: string, after: string)
    requires forall k :: 0 <= k < |before| ==> IsIntSpace(before[k])
    requires forall k :: 0 <= k < |after| ==> IsIntSpace(after[k])
    requires t != [] ==> !IsIntSpace(t[0]) && !IsIntSpace(t[|t| - 1])
    ensures ParseInt(before + t + after) == ParseUnsigned(t)
    decreases |before|
  {
    if before != [] {
      assert (before + t + after)[1..] == before[1..] + t + after;
      ParseIntStrips(before[1..], t, after);
    } else if t != [] {
      assert before + t + after == t + after;
      TrimIntEndOf(t, after);
    } else {
      assert before + t + after == after;
      ParseIntBlank(after);
    }
  }

  /** Cutting trailing int() whitespace off t + after leaves t when t ends otherwise. */
  lemma {:induction false} TrimIntEndOf(t: string, after: string)
    requires t != [] && !IsIntSpace(t[|t| - 1])
    requires forall k :: 0 <= k < |after| ==> IsIntSpace(after[k])
    ensures TrimIntEnd(t + after) == t
    decreases |after|
  {
    if after == [] {
      assert t + after == t;
    } else {
      var u := t + after;
      assert u[|u| - 1] == after[|after| - 1];
      assert u[..|u| - 1] == t + after[..|after| - 1];
      TrimIntEndOf(t, after[..|after| - 1]);
    }
  }

  /** int() of whitespace alone reads as int() of the empty string. */
  lemma {:induction false} ParseIntBlank(s: string)
    requires forall k :: 0 <= k < |s| ==> IsIntSpace(s[k])
    ensures ParseInt(s) == ParseUnsigned([])
    decreases |s|
  {
    if s != [] {
      ParseIntBlank(s[1..]);
    }
  }

  /** int() does not skip the ASCII separator U+001C that strip() removes: int('2\x1c')
      raises, while the stripped text is the numeral 2. */
  lemma SeparatorNotSkipped()
    ensures Strip("2\U{1C}") == "2"
    ensures ParseInt("2\U{1C}") == None
  {
    var s := "2\U{1C}";
    assert IsSpace(s[1]);
    assert TrimStart(s) == s;
    assert s[..1] == "2";
    assert !IsIntSpace(s[1]);
    assert TrimIntEnd(s) == s;
    assert !IsNumeral(s);
  }

  /** Digit groups separated by single underscores: a digit first, and every underscore
      followed by a digit. */
  predicate IsNumeral(b: string)
    decreases |b|
  {
    && |b| > 0
    && IsDigit(b[0])
    && (|b| == 1 || if b[1] == '_' then IsNumeral(b[2..]) else IsNumeral(b[1..]))
  }

  /** A numeral holds only digits and underscores. */
  lemma {:induction false} NumeralChars(b: string)
    requires IsNumeral(b)
    ensures DigitsOrUnderscores(b)
    decreases |b|
  {
    if |b| > 1 {
      var rest := if b[1] == '_' then b[2..] else b[1..];
      NumeralChars(rest);
      assert forall k :: |b| - |rest| <= k < |b| ==> b[k] == rest[k - (|b| - |rest|)];
    }
  }

  /** A non-empty run of digits is a numeral. */
  lemma {:induction false} DigitsNumeral(b: string)
    requires |b| > 0 && forall k :: 0 <= k < |b| ==> IsDigit(b[k])
    ensures IsNumeral(b)
    decreases |b|
  {
    if |b| > 1 {
      assert IsDigit(b[1]);
      DigitsNumeral(b[1..]);
    }
  }

  /** A non-empty run of digits reads as its decimal value. */
  lemma DigitsParse(s: string)
    requires |s| > 0 && forall k :: 0 <= k < |s| ==> IsDigit(s[k])
    ensures ParseInt(s) == Some(Value(s))
  {
    DigitNotSpace(s[0]);
    DigitNotSpace(s[|s| - 1]);
    ParseIntStrips([], s, []);
    assert [] + s + [] == s;
    DigitsNumeral(s);
  }

  /** int(str(n)) == n. */
  lemma DecimalParses(n: nat)
    ensures ParseInt(Decimal(n)) == Some(n)
  {
    DigitsParse(Decimal(n));
    DecimalValue(n);
  }

  /** The padded form has at least two digits and keeps every digit of wider numbers. */
  lemma Pad2Shape(n: nat)
    ensures |Pad2(n)| == if n < 10 then 2 else |Decimal(n)|
    ensures |Pad2(n)| >= 2
    ensures forall k :: 0 <= k < |Pad2(n)| ==> IsDigit(Pad2(n)[k])
    ensures n >= 10 ==> Pad2(n) == Decimal(n)
  {
  }

  /** The padded form reads back as n: the leading zero adds nothing. */
  lemma Pad2Parses(n: nat)
    ensures ParseInt(Pad2(n)) == Some(n)
  {
    Pad2Shape(n);
    var s := Pad2(n);
    DigitsParse(s);
    DecimalValue(n);
    if n < 10 {
      assert s[..|s| - 1] == "0";
      assert Value("0") == Value([]) * 10;
    }
  }

  /** Two numbers with the same padded form are equal. */
  lemma Pad2Injective(a: nat, b: nat)
    requires Pad2(a) == Pad2(b)
    ensures a == b
  {
    Pad2Parses(a);
    Pad2Parses(b);
  }

  /** str(n) of every number of a list, in list order. */
  function Decimals(xs: seq<nat>): seq<string>
  {
    seq(|xs|, k requires 0 <= k < |xs| => Decimal(xs[k]))
  }

  /** Python's str() of a list of ints: "[2, 3, 4]". */
  function ListRepr(xs: seq<nat>): string
  {
    "[" + Join(Decimals(xs), ", ") + "]"
  }

  /** Every piece but the first with a space in front. */
  function Spaced(parts: seq<string>): (r: seq<string>)
    requires parts != []
    ensures |r| == |parts|
  {
    [parts[0]] + seq(|parts| - 1, k requires 0 <= k < |parts| - 1 => " " + parts[k + 1])
  }

  /** Joining with ", " is joining with "," the pieces after the first prefixed by a space. */
  lemma {:induction false} JoinCommaSpace(parts: seq<string>)
    requires parts != []
    ensures Join(parts, ", ") == Join(Spaced(parts), ",")
    decreases |parts|
  {
    if |parts| > 1 {
      var rest := parts[1..];
      JoinCommaSpace(rest);
      var sp := Spaced(parts);
      assert sp[1..] == [" " + rest[0]] + Spaced(rest)[1..];
      SpaceBeforeJoin(rest[0], Spaced(rest)[1..]);
      assert Spaced(rest) == [rest[0]] + Spaced(rest)[1..];
    }
  }

  /** A space in front of a ","-join goes in front of its first piece. */
  lemma SpaceBeforeJoin(first: string, rest: seq<string>)
    ensures " " + Join([first] + rest, ",") == Join([" " + first] + rest, ",")
  {
    if rest != [] {
      assert ([first] + rest)[1..] == rest;
      assert ([" " + first] + rest)[1..] == rest;
    }
  }

  /** Python's list repr read back: split what is between the brackets at ',' and apply int()
      to every field; each field is the number, after a space for all but the first. */
  lemma ListReprFields(xs: seq<nat>)
    requires xs != []
    ensures ListRepr(xs)[1..|ListRepr(xs)| - 1] == Join(Spaced(Decimals(xs)), ",")
    ensures |Split(ListRepr(xs)[1..|ListRepr(xs)| - 1], ',')| == |xs|
    ensures forall k :: 0 <= k < |xs| ==> ParseInt(Split(ListRepr(xs)[1..|ListRepr(xs)| - 1], ',')[k]) == Some(xs[k])
  {
    var ds := Decimals(xs);
    var fields := Spaced(ds);
    JoinCommaSpace(ds);
    var r := ListRepr(xs);
    assert r[1..|r| - 1] == Join(ds, ", ");
    forall k | 0 <= k < |fields| ensures ',' !in fields[k] && ParseInt(fields[k]) == Some(xs[k]) {
      DecimalParses(xs[k]);
      if k > 0 {
        assert fields[k] == " " + Decimal(xs[k]);
        assert fields[k][1..] == Decimal(xs[k]);
      }
    }
    JoinThenSplit(fields, ',');
  }
}
