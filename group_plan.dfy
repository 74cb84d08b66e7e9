/**
 * Loading the plan from the pages file: one letter per non-blank line, each line a page
 * range. Every line is stripped, blank ones are dropped, and every surviving line is parsed
 * before the first letter is processed.
 */
module GroupPlan {
  import opened Wrappers
  import opened Text
  import opened RangeParser

  /** One line of the pages file kept as a range string, or nothing when it is blank. */
  function Kept(line: string): (kept: seq<string>)
    ensures |kept| <= 1
    ensures forall k :: 0 <= k < |kept| ==> kept[k] != [] && Strip(kept[k]) == kept[k]
  {
    StripIdempotent(line);
    if Strip(line) == [] then [] else [Strip(line)]
  }

  /** range_strings: the stripped lines that are not blank, in file order. */
  function NonBlank(lines: seq<string>): (kept: seq<string>)
    ensures |kept| <= |lines|
    ensures forall k :: 0 <= k < |kept| ==> kept[k] != [] && Strip(kept[k]) == kept[k]
  {
    if lines == [] then [] else Kept(lines[0]) + NonBlank(lines[1..])
  }

  /** The values of a list of results, or the error of the first one that failed. */
  function Collect<T, E>(results: seq<Result<T, E>>): Result<seq<T>, E>
  {
    if results == [] then Ok([])
    else
      match results[0]
      case Err(e) => Err(e)
      case Ok(v) =>
        match Collect(results[1..])
        case Err(e) => Err(e)
        case Ok(rest) => Ok([v] + rest)
  }

  /** What parse_range gives for each range string, in order. */
  function Parsed(strings: seq<string>): seq<Result<seq<nat>, ParseError>>
  {
    seq(|strings|, k requires 0 <= k < |strings| => Parse(strings[k]))
  }

  /** pages_list: every range string parsed, in order; the first one that raises decides. */
  function ParseAll(strings: seq<string>): Result<seq<seq<nat>>, ParseError>
  {
    Collect(Parsed(strings))
  }

  /** The plan: one page list per non-blank line of the pages file. */
  function LoadPlan(lines: seq<string>): Result<seq<seq<nat>>, ParseError>
  {
    ParseAll(NonBlank(lines))
  }

  /** Filtering works line by line, so it distributes over concatenation. */
  lemma {:induction false} NonBlankAppend(a: seq<string>, b: seq<string>)
    ensures NonBlank(a + b) == NonBlank(a) + NonBlank(b)
  {
    if a != [] {
      assert (a + b)[0] == a[0];
      assert (a + b)[1..] == a[1..] + b;
      NonBlankAppend(a[1..], b);
    } else {
      assert a + b == b;
    }
  }

  /** Lines that are blank or whitespace-only contribute nothing. */
  lemma {:induction false} NonBlankOfBlankLines(lines: seq<string>)
    requires forall k :: 0 <= k < |lines| ==> Strip(lines[k]) == []
    ensures NonBlank(lines) == []
  {
    if lines != [] {
      NonBlankOfBlankLines(lines[1..]);
    }
  }

  /** A blank line does not use up a group index: removing it changes nothing. */
  lemma BlankLineIgnored(before: seq<string>, blank: string, after: seq<string>)
    requires Strip(blank) == []
    ensures LoadPlan(before + [blank] + after) == LoadPlan(before + after)
  {
    NonBlankAppend(before + [blank], after);
    NonBlankAppend(before, [blank]);
    NonBlankAppend(before, after);
    assert NonBlank([blank]) == [];
    assert NonBlank(before) + [] == NonBlank(before);
  }

  /** The group of a non-blank line is its position among the non-blank lines: line j is
      group number |NonBlank(lines[..j])| and that group's range string is the stripped line. */
  lemma GroupIndex(lines: seq<string>, j: nat)
    requires j < |lines| && Strip(lines[j]) != []
    ensures |NonBlank(lines[..j])| < |NonBlank(lines)|
    ensures NonBlank(lines)[|NonBlank(lines[..j])|] == Strip(lines[j])
  {
    assert lines == lines[..j] + [lines[j]] + lines[j + 1..];
    NonBlankAppend(lines[..j] + [lines[j]], lines[j + 1..]);
    NonBlankAppend(lines[..j], [lines[j]]);
    assert NonBlank([lines[j]]) == [Strip(lines[j])];
  }

  /** Collecting succeeds exactly when every result is a value. */
  lemma {:induction false} CollectOkIff<T, E>(results: seq<Result<T, E>>)
    ensures Collect(results).Ok? <==> forall k :: 0 <= k < |results| ==> results[k].Ok?
  {
    if results != [] {
      CollectOkIff(results[1..]);
      if forall k :: 1 <= k < |results| ==> results[k].Ok? {
        assert forall k :: 0 <= k < |results| - 1 ==> results[1..][k] == results[k + 1];
      }
      if !Collect(results[1..]).Ok? {
        var k :| 0 <= k < |results| - 1 && !results[1..][k].Ok?;
        assert results[1..][k] == results[k + 1];
      }
    }
  }

  /** A successful collection keeps every value, in order. */
  lemma {:induction false} CollectValues<T, E>(results: seq<Result<T, E>>, values: seq<T>)
    requires Collect(results) == Ok(values)
    ensures |values| == |results|
    ensures forall k :: 0 <= k < |results| ==> results[k] == Ok(values[k])
  {
    if results != [] {
      var rest := Collect(results[1..]).value;
      CollectValues(results[1..], rest);
      assert values == [results[0].value] + rest;
      forall k | 1 <= k < |results| ensures results[k] == Ok(values[k]) {
        assert results[1..][k - 1] == results[k];
      }
    }
  }

  /** A failed collection reports the error of the first failing result. */
  lemma {:induction false} CollectFirstError<T, E>(results: seq<Result<T, E>>, k: nat)
    requires k < |results| && results[k].Err?
    requires forall j :: 0 <= j < k ==> results[j].Ok?
    ensures Collect(results) == Err(results[k].error)
  {
    if k > 0 {
      assert results[1..][k - 1] == results[k];
      CollectFirstError(results[1..], k - 1);
    }
  }

  /** The plan exists exactly when every range string parses; then it has one page list per
      string, each the parse of that string. */
  lemma ParseAllSpec(strings: seq<string>)
    ensures ParseAll(strings).Ok? <==> forall k :: 0 <= k < |strings| ==> Parse(strings[k]).Ok?
    ensures ParseAll(strings).Ok? ==> |ParseAll(strings).value| == |strings|
    ensures ParseAll(strings).Ok? ==>
      forall k :: 0 <= k < |strings| ==> Parse(strings[k]) == Ok(ParseAll(strings).value[k])
  {
    var results := Parsed(strings);
    assert |results| == |strings|;
    assert forall k :: 0 <= k < |strings| ==> results[k] == Parse(strings[k]);
    CollectOkIff(results);
    if ParseAll(strings).Ok? {
      CollectValues(results, ParseAll(strings).value);
    }
  }

  /** The error raised is that of the first range string that does not parse. */
  lemma ParseAllFirstError(strings: seq<string>, k: nat)
    requires k < |strings| && Parse(strings[k]).Err?
    requires forall j :: 0 <= j < k ==> Parse(strings[j]).Ok?
    ensures ParseAll(strings) == Err(Parse(strings[k]).error)
  {
    CollectFirstError(Parsed(strings), k);
  }

  /** A loaded plan has one group per non-blank line, in file order. */
  lemma LoadPlanSpec(lines: seq<string>)
    ensures LoadPlan(lines).Ok? <==> forall k :: 0 <= k < |NonBlank(lines)| ==> Parse(NonBlank(lines)[k]).Ok?
    ensures LoadPlan(lines).Ok? ==>
      && |LoadPlan(lines).value| == |NonBlank(lines)|
      && forall k :: 0 <= k < |NonBlank(lines)| ==> LoadPlan(lines).value[k] == Parse(NonBlank(lines)[k]).value
  {
    ParseAllSpec(NonBlank(lines));
  }

  /** A line that fails to parse prevents the whole plan from loading. */
  lemma BadLineFails(lines: seq<string>, j: nat)
    requires j < |lines| && Strip(lines[j]) != [] && Parse(Strip(lines[j])).Err?
    ensures LoadPlan(lines).Err?
  {
    GroupIndex(lines, j);
    ParseAllSpec(NonBlank(lines));
  }
}
