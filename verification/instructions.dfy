/**
 * The instruction-list extraction of `generate_instructions`, shared
 * verbatim by the SFT generator (src/data_generator.py) and the DPO generator
 * (src/dataset_generators/dpo_generator.py): parse the extracted reply as a
 * JSON value or split it into lines, top up from the raw reply's lines when
 * that gives too few, and cut the list to the requested count.
 */
module Instructions {

  import opened Wrappers
  import opened Text
  import opened Extraction
  import opened Slices

  // ---------------------------------------------------------------------
  // Parsing the extracted content

  /** Items read off the extracted content. An empty extraction gives none;
      a JSON list gives its non-blank items (each already `str()`-ed),
      stripped; a JSON string gives its non-blank lines; any other JSON value
      gives its stripped `str()`; text that is not JSON gives its non-blank
      lines. */
  function ParsedItems(extracted: string, parse: JsonParser): (r: seq<string>)
    ensures forall k :: 0 <= k < |r| ==> Trimmed(r[k]) && |r[k]| > 0
    ensures |extracted| == 0 ==> r == []
  {
    if |extracted| == 0 then []
    else
      match parse(extracted)
      case JList(items) => StripAndKeep(items)
      case JString(value) => StrippedLines(value)
      case JOther(repr) =>
        StripNonEmpty(repr);
        [Strip(repr)]
      case NotJson => StrippedLines(extracted)
  }

  // ---------------------------------------------------------------------
  // The raw-line fallback

  /** A raw line the fallback never takes: commentary or a language tag. */
  predicate Commentary(line: string) {
    var l := Lower(line);
    StartsWith(l, "示例") || StartsWith(l, "以下是") || StartsWith(l, "这是") || StartsWith(l, "json")
  }

  /** The fallback takes `line` when it is no commentary and not yet listed. */
  predicate Takes(acc: seq<string>, line: string) {
    !Commentary(line) && line !in acc
  }

  predicate NoDuplicates(xs: seq<string>) {
    forall i, j :: 0 <= i < j < |xs| ==> xs[i] != xs[j]
  }

  /** The `for line in raw_lines` loop: each taken line is appended, so later
      copies of it are refused. */
  function TopUp(acc: seq<string>, lines: seq<string>): (r: seq<string>)
    ensures |acc| <= |r| && r[..|acc|] == acc
    ensures forall k :: |acc| <= k < |r| ==> r[k] in lines && !Commentary(r[k]) && r[k] !in acc
    ensures forall i, j :: |acc| <= i < j < |r| ==> r[i] != r[j]
    ensures |r| <= |acc| + |lines|
    decreases |lines|
  {
    if |lines| == 0 then acc
    else
      var next := if Takes(acc, lines[0]) then acc + [lines[0]] else acc;
      var r := TopUp(next, lines[1..]);
      assert r[..|acc|] == r[..|next|][..|acc|];
      forall k | |acc| <= k < |r| ensures r[k] in lines && !Commentary(r[k]) && r[k] !in acc {
        if k < |next| {
          assert r[k] == next[k] == lines[0];
        } else {
          assert r[k] !in next && r[k] in lines[1..];
          assert forall x :: x in acc ==> x in next;
        }
      }
      forall i, j | |acc| <= i < j < |r| ensures r[i] != r[j] {
        if i < |next| {
          assert r[i] == next[i] && r[i] in next;
          if j < |next| {
            assert false;
          }
        }
      }
      r
  }

  /** A taken line is never one already collected, so the fallback keeps a
      duplicate-free list duplicate-free. */
  lemma TopUpKeepsNoDuplicates(acc: seq<string>, lines: seq<string>)
    requires NoDuplicates(acc)
    ensures NoDuplicates(TopUp(acc, lines))
  {
    var r := TopUp(acc, lines);
    forall i, j | 0 <= i < j < |r| ensures r[i] != r[j] {
      if i < |acc| && j >= |acc| {
        assert r[i] == acc[i] && r[i] in acc;
      } else if j < |acc| {
        assert r[i] == acc[i] && r[j] == acc[j];
      }
    }
  }

  // ---------------------------------------------------------------------
  // generate_instructions

  /** Every item is stripped and non-empty. */
  predicate Clean(xs: seq<string>) {
    forall k :: 0 <= k < |xs| ==> Trimmed(xs[k]) && |xs[k]| > 0
  }

  lemma TopUpKeepsClean(acc: seq<string>, lines: seq<string>)
    requires Clean(acc) && Clean(lines)
    ensures Clean(TopUp(acc, lines))
  {
    var r := TopUp(acc, lines);
    forall k | 0 <= k < |r| ensures Trimmed(r[k]) && |r[k]| > 0 {
      if k < |acc| {
        assert r[k] == acc[k];
      } else {
        var j :| 0 <= j < |lines| && lines[j] == r[k];
      }
    }
  }

  /** Whether the fallback runs: no item, or fewer than requested. */
  predicate NeedsTopUp(items: seq<string>, n: int) {
    |items| == 0 || |items| < n
  }

  /** The instruction list `generate_instructions(n)` returns for the model
      reply `response`. */
  function GenerateInstructions(response: string, n: int, parse: JsonParser): (r: seq<string>)
    ensures n >= 0 ==> |r| <= n
    ensures Clean(r)
  {
    var items := ParsedItems(ExtractContent(response, parse), parse);
    var lines := StrippedLines(response);
    var all := if NeedsTopUp(items, n) then TopUp(items, lines) else items;
    TopUpKeepsClean(items, lines);
    var r := SliceTo(all, n);
    assert forall k :: 0 <= k < |r| ==> r[k] == all[k];
    r
  }

  /** The extracted items come first, in order: the result is a prefix of
      them, or all of them followed by fallback lines. */
  lemma GenerateInstructionsShape(response: string, n: int, parse: JsonParser)
    ensures var items := ParsedItems(ExtractContent(response, parse), parse);
            var r := GenerateInstructions(response, n, parse);
            && (|r| <= |items| ==> r == items[..|r|])
            && (|r| > |items| ==> r[..|items|] == items)
  {
  }

  /** Enough extracted items: the raw reply is not consulted, and the result
      is the first `n` of them. */
  lemma EnoughItemsSkipTopUp(response: string, n: int, parse: JsonParser)
    requires n >= 0
    requires var items := ParsedItems(ExtractContent(response, parse), parse);
             |items| > 0 && |items| >= n
    ensures GenerateInstructions(response, n, parse)
         == ParsedItems(ExtractContent(response, parse), parse)[..n]
  {
  }

  /** Lines contributed by the fallback are non-blank stripped lines of the
      raw reply, none is commentary, none repeats an extracted item and none
      repeats another. */
  lemma TopUpLines(response: string, n: int, parse: JsonParser)
    ensures var items := ParsedItems(ExtractContent(response, parse), parse);
            var r := GenerateInstructions(response, n, parse);
            && (forall k :: |items| <= k < |r| ==>
                  r[k] in StrippedLines(response) && !Commentary(r[k]) && r[k] !in items)
            && (forall i, j :: |items| <= i < j < |r| ==> r[i] != r[j])
  {
    var items := ParsedItems(ExtractContent(response, parse), parse);
    var r := GenerateInstructions(response, n, parse);
    if NeedsTopUp(items, n) {
      var all := TopUp(items, StrippedLines(response));
      assert r == all[..|r|];
      forall k | |items| <= k < |r| ensures r[k] == all[k] { }
    }
  }

  /** A reply whose extraction already yields a duplicate-free list gives a
      duplicate-free result. */
  lemma NoDuplicatesWhenItemsDistinct(response: string, n: int, parse: JsonParser)
    requires NoDuplicates(ParsedItems(ExtractContent(response, parse), parse))
    ensures NoDuplicates(GenerateInstructions(response, n, parse))
  {
    var items := ParsedItems(ExtractContent(response, parse), parse);
    var all := if NeedsTopUp(items, n) then TopUp(items, StrippedLines(response)) else items;
    if NeedsTopUp(items, n) {
      TopUpKeepsNoDuplicates(items, StrippedLines(response));
    }
    var r := GenerateInstructions(response, n, parse);
    assert r == all[..|r|];
    forall i, j | 0 <= i < j < |r| ensures r[i] != r[j] {
      assert r[i] == all[i] && r[j] == all[j];
    }
  }
}
