/**
 * `extract_content_between_backticks`: pulls the payload out of a raw model
 * response. In priority order it takes a ```` ```json{…}``` ```` block, then
 * any fenced block, then an unfenced `json\n` document that parses, and
 * otherwise strips a fixed list of commentary prefixes and suffixes.
 *
 * The two regular expressions are modelled twice: declaratively, as what
 * `re.search` returns (leftmost start; greedy or lazy end), and as the
 * search functions the extraction uses; lemmas connect the two.
 */
module Extraction {

  import opened Wrappers
  import opened Text

  /** What `json.loads` makes of a string. List elements are carried as the
      strings `str(item)` renders; `str()` of a number, boolean, null or
      object is never blank. */
  datatype Json =
    | NotJson
    | JList(items: seq<string>)
    | JString(value: string)
    | JOther(repr: NonBlank)

  /** `json.loads`, left uninterpreted. */
  type JsonParser = string -> Json

  const Fence: string := "```"
  const JsonFence: string := "```json"
  const JsonLine: string := "json\n"
  const Prefixes: seq<string> := ["以下是生成的", "这是", "生成的", "以下是", "json"]
  const Suffixes: seq<string> := ["希望这对你有帮助", "希望这能满足你的需求", "如有需要"]

  // ---------------------------------------------------------------------
  // The JSON pattern  ```json\s*(\{.*\})\s*```  with re.DOTALL

  /** `}` at `e` followed by optional whitespace and a fence. */
  predicate JsonCloseAt(s: string, e: int) {
    0 <= e < |s| && s[e] == '}' && OccursAt(s, SkipSpaces(s, e + 1), Fence)
  }

  /** The JSON pattern matches at `p`, capturing `s[b..e+1]`. The greedy
      `\s*` can only end at the first non-space, so `b` is determined by `p`. */
  predicate JsonMatch(s: string, p: int, b: int, e: int) {
    OccursAt(s, p, JsonFence) && b == SkipSpaces(s, p + |JsonFence|)
    && b < e && JsonCloseAt(s, e) && s[b] == '{'
  }

  /** The match `re.search` reports: the leftmost start, and for it the
      last closing brace the greedy `.*` reaches. */
  ghost predicate JsonSearch(s: string, p: int, b: int, e: int) {
    && JsonMatch(s, p, b, e)
    && (forall p', b', e' :: 0 <= p' < p ==> !JsonMatch(s, p', b', e'))
    && (forall e' :: e < e' ==> !JsonMatch(s, p, b, e'))
  }

  function LastJsonClose(s: string, b: nat, k: nat): (r: Option<nat>)
    requires k <= |s|
    ensures r.Some? ==> b < r.value < k && JsonCloseAt(s, r.value)
    ensures r.Some? ==> forall e :: r.value < e < k ==> !JsonCloseAt(s, e)
    ensures r.None? ==> forall e :: b < e < k ==> !JsonCloseAt(s, e)
    decreases k
  {
    if k <= b + 1 then None
    else if JsonCloseAt(s, k - 1) then Some(k - 1)
    else LastJsonClose(s, b, k - 1)
  }

  /** Scan start positions from `p` upwards for the JSON pattern; the end of
      a match is the last closing brace after its `{`. */
  function FindJsonMatch(s: string, p: nat): (r: Option<(nat, nat, nat)>)
    requires p <= |s|
    ensures r.Some? ==> p <= r.value.0 && JsonMatch(s, r.value.0, r.value.1, r.value.2)
    ensures r.Some? ==> LastJsonClose(s, r.value.1, |s|) == Some(r.value.2)
    decreases |s| - p
  {
    if p + |JsonFence| > |s| then None
    else
      var b := SkipSpaces(s, p + |JsonFence|);
      var close := if OccursAt(s, p, JsonFence) && b < |s| && s[b] == '{'
                   then LastJsonClose(s, b, |s|) else None;
      if close.Some? then Some((p, b, close.value)) else FindJsonMatch(s, p + 1)
  }

  /** No JSON match starts at or after `p` and before the one the scan
      returns (anywhere at or after `p` when it returns nothing). */
  lemma {:induction false} JsonScanSkips(s: string, p: nat)
    requires p <= |s|
    ensures var r := FindJsonMatch(s, p);
            forall p', b', e' :: p <= p' && (r.None? || p' < r.value.0) ==> !JsonMatch(s, p', b', e')
    decreases |s| - p
  {
    if p + |JsonFence| <= |s| {
      var b := SkipSpaces(s, p + |JsonFence|);
      var close := if OccursAt(s, p, JsonFence) && b < |s| && s[b] == '{'
                   then LastJsonClose(s, b, |s|) else None;
      if close.None? {
        NoJsonMatchAt(s, p);
        JsonScanSkips(s, p + 1);
      }
    }
  }

  lemma NoJsonMatchAt(s: string, p: nat)
    requires p + |JsonFence| <= |s|
    requires var b := SkipSpaces(s, p + |JsonFence|);
             !(OccursAt(s, p, JsonFence) && b < |s| && s[b] == '{' && LastJsonClose(s, b, |s|).Some?)
    ensures forall b, e :: !JsonMatch(s, p, b, e)
  {
  }

  /** The end the scan returns is the last one the greedy `.*` reaches. */
  lemma JsonScanGreedy(s: string, p: nat, b: nat, e: nat)
    requires b <= |s| && LastJsonClose(s, b, |s|) == Some(e)
    ensures forall e' :: e < e' ==> !JsonMatch(s, p, b, e')
  {
  }

  /** The search finds exactly the match `re.search` reports. */
  lemma FindJsonMatchIsSearch(s: string)
    ensures forall p, b, e :: JsonSearch(s, p, b, e) <==> FindJsonMatch(s, 0) == Some((p, b, e))
    ensures FindJsonMatch(s, 0).None? <==> forall p, b, e :: !JsonMatch(s, p, b, e)
  {
    var r := FindJsonMatch(s, 0);
    JsonScanSkips(s, 0);
    if r.Some? {
      JsonScanGreedy(s, r.value.0, r.value.1, r.value.2);
      assert JsonSearch(s, r.value.0, r.value.1, r.value.2);
    }
    forall p, b, e | JsonSearch(s, p, b, e) ensures r == Some((p, b, e)) {
      JsonSearchFound(s, p, b, e);
    }
  }

  lemma JsonSearchFound(s: string, p: int, b: int, e: int)
    requires JsonSearch(s, p, b, e)
    ensures FindJsonMatch(s, 0) == Some((p, b, e))
  {
    JsonSearchStart(s, p, b, e);
    var m := FindJsonMatch(s, 0).value;
    JsonSearchEnd(s, p, b, e, m.2);
    assert m == (p, b, e);
  }

  /** The last closing brace is where `re.search`'s greedy group ends. */
  lemma JsonSearchEnd(s: string, p: int, b: int, e: int, e2: nat)
    requires JsonSearch(s, p, b, e)
    requires b <= |s| && LastJsonClose(s, b, |s|) == Some(e2)
    ensures e2 == e
  {
    assert JsonMatch(s, p, b, e2);
    JsonScanGreedy(s, p, b, e2);
  }

  /** The scan starts where `re.search` starts. */
  lemma JsonSearchStart(s: string, p: int, b: int, e: int)
    requires JsonSearch(s, p, b, e)
    ensures var r := FindJsonMatch(s, 0); r.Some? && r.value.0 == p && r.value.1 == b
  {
    JsonScanSkips(s, 0);
  }

  // ---------------------------------------------------------------------
  // The general pattern  ```\s*(.*?)\s*```  with re.DOTALL

  /** The general pattern matches at `p`, capturing `s[b..c]`: after the lazy
      group, optional whitespace and a fence must follow. */
  predicate GeneralMatch(s: string, p: int, b: int, c: int) {
    OccursAt(s, p, Fence) && b == SkipSpaces(s, p + |Fence|)
    && b <= c <= |s| && OccursAt(s, SkipSpaces(s, c), Fence)
  }

  /** The match `re.search` reports: the leftmost start, and for it the
      shortest group the lazy `.*?` allows. */
  ghost predicate GeneralSearch(s: string, p: int, b: int, c: int) {
    && GeneralMatch(s, p, b, c)
    && (forall p', b', c' :: 0 <= p' < p ==> !GeneralMatch(s, p', b', c'))
    && (forall c' :: c' < c ==> !GeneralMatch(s, p, b, c'))
  }

  function FirstGeneralClose(s: string, c: nat): (r: Option<nat>)
    requires c <= |s|
    ensures r.Some? ==> c <= r.value <= |s| && OccursAt(s, SkipSpaces(s, r.value), Fence)
    ensures r.Some? ==> forall c' :: c <= c' < r.value ==> !OccursAt(s, SkipSpaces(s, c'), Fence)
    ensures r.None? ==> forall c' :: c <= c' <= |s| ==> !OccursAt(s, SkipSpaces(s, c'), Fence)
    decreases |s| - c
  {
    if OccursAt(s, SkipSpaces(s, c), Fence) then Some(c)
    else if c == |s| then None
    else FirstGeneralClose(s, c + 1)
  }

  /** Scan start positions from `p` upwards for the general pattern; the end
      of a match is the first closing fence after its body starts. */
  function FindGeneralMatch(s: string, p: nat): (r: Option<(nat, nat, nat)>)
    requires p <= |s|
    ensures r.Some? ==> p <= r.value.0 && GeneralMatch(s, r.value.0, r.value.1, r.value.2)
    ensures r.Some? ==> FirstGeneralClose(s, r.value.1) == Some(r.value.2)
    decreases |s| - p
  {
    if p + |Fence| > |s| then None
    else if !OccursAt(s, p, Fence) then FindGeneralMatch(s, p + 1)
    else
      var b := SkipSpaces(s, p + |Fence|);
      match FirstGeneralClose(s, b)
      case Some(c) => Some((p, b, c))
      case None => FindGeneralMatch(s, p + 1)
  }

  lemma NoGeneralMatchAt(s: string, p: nat)
    requires p + |Fence| <= |s|
    requires FirstGeneralClose(s, SkipSpaces(s, p + |Fence|)).None?
    ensures forall b, c :: !GeneralMatch(s, p, b, c)
  {
  }

  /** No general match starts at or after `p` and before the one the scan
      returns (anywhere at or after `p` when it returns nothing). */
  lemma {:induction false} GeneralScanSkips(s: string, p: nat)
    requires p <= |s|
    ensures var r := FindGeneralMatch(s, p);
            forall p', b', c' :: p <= p' && (r.None? || p' < r.value.0) ==> !GeneralMatch(s, p', b', c')
    decreases |s| - p
  {
    if p + |Fence| <= |s| {
      if !OccursAt(s, p, Fence) {
        GeneralScanSkips(s, p + 1);
      } else if FirstGeneralClose(s, SkipSpaces(s, p + |Fence|)).None? {
        NoGeneralMatchAt(s, p);
        GeneralScanSkips(s, p + 1);
      }
    }
  }

  /** The end the scan returns is the first one the lazy `.*?` allows. */
  lemma GeneralScanLazy(s: string, p: nat, b: nat, c: nat)
    requires b <= |s| && FirstGeneralClose(s, b) == Some(c)
    ensures forall c' :: c' < c ==> !GeneralMatch(s, p, b, c')
  {
  }

  lemma FindGeneralMatchIsSearch(s: string)
    ensures forall p, b, c :: GeneralSearch(s, p, b, c) <==> FindGeneralMatch(s, 0) == Some((p, b, c))
    ensures FindGeneralMatch(s, 0).None? <==> forall p, b, c :: !GeneralMatch(s, p, b, c)
  {
    var r := FindGeneralMatch(s, 0);
    GeneralScanSkips(s, 0);
    if r.Some? {
      GeneralScanLazy(s, r.value.0, r.value.1, r.value.2);
      assert GeneralSearch(s, r.value.0, r.value.1, r.value.2);
    }
    forall p, b, c | GeneralSearch(s, p, b, c) ensures r == Some((p, b, c)) {
      GeneralSearchFound(s, p, b, c);
    }
  }

  lemma GeneralSearchFound(s: string, p: int, b: int, c: int)
    requires GeneralSearch(s, p, b, c)
    ensures FindGeneralMatch(s, 0) == Some((p, b, c))
  {
    GeneralSearchStart(s, p, b, c);
    var m := FindGeneralMatch(s, 0).value;
    GeneralSearchEnd(s, p, b, c, m.2);
    assert m == (p, b, c);
  }

  /** The first closing fence is where `re.search`'s lazy group ends. */
  lemma GeneralSearchEnd(s: string, p: int, b: int, c: int, c2: nat)
    requires GeneralSearch(s, p, b, c)
    requires b <= |s| && FirstGeneralClose(s, b) == Some(c2)
    ensures c2 == c
  {
    assert GeneralMatch(s, p, b, c2);
    GeneralScanLazy(s, p, b, c2);
  }

  /** The scan starts where `re.search` starts. */
  lemma GeneralSearchStart(s: string, p: int, b: int, c: int)
    requires GeneralSearch(s, p, b, c)
    ensures var r := FindGeneralMatch(s, 0); r.Some? && r.value.0 == p && r.value.1 == b
  {
    GeneralScanSkips(s, 0);
  }

  /** Wherever the JSON pattern matches, the general pattern matches too, so
      text on which the general pattern finds nothing has no JSON block. */
  lemma JsonMatchIsGeneralMatch(s: string, p: int, b: int, e: int)
    requires JsonMatch(s, p, b, e)
    ensures GeneralMatch(s, p, p + |Fence|, e + 1)
  {
    assert s[p..p + |Fence|] == s[p..p + |JsonFence|][..|Fence|];
    assert s[p + |Fence|] == s[p..p + |JsonFence|][3];
    assert SkipSpaces(s, p + |Fence|) == p + |Fence|;
  }

  // ---------------------------------------------------------------------
  // The extraction

  /** `content[5:].strip()` when `content.lower()` starts with `json\n`. */
  function DropJsonLine(content: string): (r: string)
    requires Trimmed(content)
    ensures Trimmed(r) && IsInfix(r, content)
  {
    if StartsWith(Lower(content), JsonLine) then
      var r := Strip(content[|JsonLine|..]);
      SliceIsInfix(content, |JsonLine|, |content|);
      InfixTransitive(r, content[|JsonLine|..], content);
      r
    else
      InfixReflexive(content);
      content
  }

  /** One prefix step: `cleaned[len(prefix):].lstrip()` when the lower-cased
      text starts with the lower-cased prefix. */
  function CutPrefix(t: string, prefix: string): (r: string)
    ensures EndsWith(t, r)
    ensures StartsWith(Lower(t), Lower(prefix)) ==> r == LStrip(t[|prefix|..])
    ensures !StartsWith(Lower(t), Lower(prefix)) ==> r == t
  {
    if StartsWith(Lower(t), Lower(prefix)) then LStrip(t[|prefix|..]) else t
  }

  /** Each listed prefix is tried once, in order. */
  function CutPrefixes(t: string, prefixes: seq<string>): (r: string)
    ensures EndsWith(t, r)
  {
    if |prefixes| == 0 then t
    else
      var r := CutPrefixes(CutPrefix(t, prefixes[0]), prefixes[1..]);
      SuffixTransitive(r, CutPrefix(t, prefixes[0]), t);
      r
  }

  /** One suffix step: when the lower-cased text ends with the lower-cased
      suffix, cut at the FIRST occurrence of that suffix and `rstrip`. */
  function CutSuffix(t: string, suffix: string): (r: string)
    ensures StartsWith(t, r)
    ensures !EndsWith(Lower(t), Lower(suffix)) ==> r == t
    ensures EndsWith(Lower(t), Lower(suffix)) ==>
      exists i :: OccursAt(Lower(t), i, Lower(suffix))
        && (forall k :: 0 <= k < i ==> !OccursAt(Lower(t), k, Lower(suffix)))
        && r == RStrip(t[..i])
  {
    if EndsWith(Lower(t), Lower(suffix)) then
      assert OccursAt(Lower(t), |t| - |suffix|, Lower(suffix));
      var i := Find(Lower(t), Lower(suffix), 0);
      RStrip(t[..i])
    else t
  }

  function CutSuffixes(t: string, suffixes: seq<string>): (r: string)
    ensures StartsWith(t, r)
  {
    if |suffixes| == 0 then t
    else
      var r := CutSuffixes(CutSuffix(t, suffixes[0]), suffixes[1..]);
      PrefixTransitive(r, CutSuffix(t, suffixes[0]), t);
      r
  }

  /** `extract_content_between_backticks(text)`; `parse` is `json.loads`. */
  function ExtractContent(text: string, parse: JsonParser): (r: string)
    ensures Trimmed(r)
    ensures IsInfix(r, text)
  {
    match FindJsonMatch(text, 0)
    case Some(m) =>
      SliceIsInfix(text, m.1, m.2 + 1);
      InfixTransitive(Strip(text[m.1..m.2 + 1]), text[m.1..m.2 + 1], text);
      Strip(text[m.1..m.2 + 1])
    case None =>
      match FindGeneralMatch(text, 0)
      case Some(m) =>
        var content := Strip(text[m.1..m.2]);
        SliceIsInfix(text, m.1, m.2);
        InfixTransitive(content, text[m.1..m.2], text);
        InfixTransitive(DropJsonLine(content), content, text);
        DropJsonLine(content)
      case None =>
        var rest := if |text| >= |JsonLine| then Strip(text[|JsonLine|..]) else "";
        if StartsWith(Lower(text), JsonLine) && !parse(rest).NotJson? then
          SliceIsInfix(text, |JsonLine|, |text|);
          InfixTransitive(rest, text[|JsonLine|..], text);
          rest
        else
          FallbackInfix(text);
          Strip(CutSuffixes(CutPrefixes(text, Prefixes), Suffixes))
  }

  lemma FallbackInfix(text: string)
    ensures IsInfix(Strip(CutSuffixes(CutPrefixes(text, Prefixes), Suffixes)), text)
  {
    var a := CutPrefixes(text, Prefixes);
    var b := CutSuffixes(a, Suffixes);
    assert a == text[|text| - |a|..];
    SliceIsInfix(text, |text| - |a|, |text|);
    assert b == a[..|b|];
    SliceIsInfix(a, 0, |b|);
    InfixTransitive(b, a, text);
    InfixTransitive(Strip(b), b, text);
  }

  // ---------------------------------------------------------------------
  // Which rule decides

  /** A ```` ```json{…}``` ```` block wins over every other rule: the result
      is the captured object, from its `{` to the last `}` the greedy match
      reaches. */
  lemma JsonBlockWins(text: string, parse: JsonParser, p: int, b: int, e: int)
    requires JsonSearch(text, p, b, e)
    ensures ExtractContent(text, parse) == text[b..e + 1]
    ensures text[b] == '{' && text[e] == '}'
  {
    JsonSearchFound(text, p, b, e);
    var body := text[b..e + 1];
    assert body[0] == '{' && body[|body| - 1] == '}';
    StripTrimmed(body);
  }

  /** Without a JSON block, the first fenced block decides: its trimmed body,
      minus a leading case-insensitive `json\n` line. */
  lemma FencedBlockWins(text: string, parse: JsonParser, p: int, b: int, c: int)
    requires forall p', b', e' :: !JsonMatch(text, p', b', e')
    requires GeneralSearch(text, p, b, c)
    ensures ExtractContent(text, parse) == DropJsonLine(Strip(text[b..c]))
  {
    GeneralSearchFound(text, p, b, c);
  }

  /** Fence-free text that starts with `json\n` and whose remainder parses
      as JSON yields that remainder, trimmed. */
  lemma UnfencedJsonDocument(text: string, parse: JsonParser)
    requires forall p, b, c :: !GeneralMatch(text, p, b, c)
    requires StartsWith(Lower(text), JsonLine)
    requires !parse(Strip(text[|JsonLine|..])).NotJson?
    ensures ExtractContent(text, parse) == Strip(text[|JsonLine|..])
  {
    NoGeneralNoJson(text);
    FindGeneralMatchIsSearch(text);
  }

  lemma NoGeneralNoJson(text: string)
    requires forall p, b, c :: !GeneralMatch(text, p, b, c)
    ensures FindJsonMatch(text, 0).None?
  {
    forall p, b, e | JsonMatch(text, p, b, e) ensures false {
      JsonMatchIsGeneralMatch(text, p, b, e);
    }
    FindJsonMatchIsSearch(text);
  }

  /** Fence-free text that starts with none of the listed prefixes and ends
      with none of the listed suffixes is only stripped of whitespace. */
  lemma PlainTextIsStripped(text: string, parse: JsonParser)
    requires forall p, b, c :: !GeneralMatch(text, p, b, c)
    requires forall k :: 0 <= k < |Prefixes| ==> !StartsWith(Lower(text), Lower(Prefixes[k]))
    requires forall k :: 0 <= k < |Suffixes| ==> !EndsWith(Lower(text), Lower(Suffixes[k]))
    ensures ExtractContent(text, parse) == Strip(text)
  {
    NoGeneralNoJson(text);
    FindGeneralMatchIsSearch(text);
    assert Lower(Prefixes[4]) == "json";
    JsonLineStartsWithJson(Lower(text));
    CutPrefixesNone(text, Prefixes);
    CutSuffixesNone(text, Suffixes);
  }

  /** Fence-free text that is not an unfenced JSON document (it does not
      start with `json\n`, or what follows does not parse) goes through the
      commentary-removal rule. */
  lemma FallbackRule(text: string, parse: JsonParser)
    requires forall p, b, c :: !GeneralMatch(text, p, b, c)
    requires StartsWith(Lower(text), JsonLine) ==> parse(Strip(text[|JsonLine|..])).NotJson?
    ensures ExtractContent(text, parse) == Strip(CutSuffixes(CutPrefixes(text, Prefixes), Suffixes))
  {
    NoGeneralNoJson(text);
    FindGeneralMatchIsSearch(text);
  }

  lemma JsonLineStartsWithJson(x: string)
    ensures StartsWith(x, JsonLine) ==> StartsWith(x, "json")
  {
    if StartsWith(x, JsonLine) {
      assert x[..4] == JsonLine[..4];
    }
  }

  lemma CutPrefixesNone(t: string, prefixes: seq<string>)
    requires forall k :: 0 <= k < |prefixes| ==> !StartsWith(Lower(t), Lower(prefixes[k]))
    ensures CutPrefixes(t, prefixes) == t
  {
    if |prefixes| > 0 {
      assert !StartsWith(Lower(t), Lower(prefixes[0]));
      CutPrefixesNone(t, prefixes[1..]);
    }
  }

  lemma CutSuffixesNone(t: string, suffixes: seq<string>)
    requires forall k :: 0 <= k < |suffixes| ==> !EndsWith(Lower(t), Lower(suffixes[k]))
    ensures CutSuffixes(t, suffixes) == t
  {
    if |suffixes| > 0 {
      assert !EndsWith(Lower(t), Lower(suffixes[0]));
      CutSuffixesNone(t, suffixes[1..]);
    }
  }

  // ---------------------------------------------------------------------
  // Worked examples

  lemma NoJsonFenceWithoutJ(text: string)
    requires 'j' !in text
    ensures forall p, b, e :: !JsonMatch(text, p, b, e)
  {
    forall p: int | 0 <= p && p + |JsonFence| <= |text| ensures !OccursAt(text, p, JsonFence) {
      assert text[p + 3] in text;
    }
  }

  /** A model reply of the form ```` ```INSTR_0``` ```` yields `INSTR_0`. */
  lemma FencedReplyExample(text: string, parse: JsonParser)
    requires text == "```INSTR_0```"
    ensures ExtractContent(text, parse) == "INSTR_0"
  {
    NoJsonFenceWithoutJ(text);
    ExampleSearch(text);
    FencedBlockWins(text, parse, 0, 3, 10);
    ExampleBody(text[3..10]);
  }

  lemma ExampleSearch(text: string)
    requires text == "```INSTR_0```"
    ensures GeneralSearch(text, 0, 3, 10)
    ensures text[3..10] == "INSTR_0"
  {
    assert text[0..3] == Fence;
    assert text[10..13] == Fence;
    assert SkipSpaces(text, 3) == 3;
    assert SkipSpaces(text, 10) == 10;
    ExampleNoInnerFence(text);
  }

  lemma ExampleNoInnerFence(text: string)
    requires text == "```INSTR_0```"
    ensures forall c': int :: 3 <= c' < 10 ==> !OccursAt(text, SkipSpaces(text, c'), Fence)
  {
    forall c': int | 3 <= c' < 10 ensures !OccursAt(text, SkipSpaces(text, c'), Fence) {
      assert text[c'] != '`';
      assert SkipSpaces(text, c') == c';
    }
  }

  lemma ExampleBody(body: string)
    requires body == "INSTR_0"
    ensures DropJsonLine(Strip(body)) == body
  {
    assert body[0] == 'I' && body[6] == '0';
    StripTrimmed(body);
    NoJsonLineByFirst(body);
  }

  /** Text whose first character does not lower-case to `j` has no `json\n`
      line to drop. */
  lemma NoJsonLineByFirst(s: string)
    requires |s| > 0 && LowerChar(s[0]) != 'j'
    ensures !StartsWith(Lower(s), JsonLine)
  {
    assert Lower(s)[0] != JsonLine[0];
  }

  lemma NoFenceWithoutBacktick(text: string)
    requires '`' !in text
    ensures forall p, b, c :: !GeneralMatch(text, p, b, c)
  {
    forall p: int | 0 <= p && p + |Fence| <= |text| ensures !OccursAt(text, p, Fence) {
      assert text[p] in text;
    }
  }

  /** Commentary prefixes are removed in list order, each at most once, and a
      trailing courtesy phrase is cut off. */
  lemma CommentaryExample(text: string, parse: JsonParser)
    requires text == "这是生成的 答案 希望这对你有帮助"
    ensures ExtractContent(text, parse) == "答案"
  {
    ExampleNoFence();
    FallbackRule(text, parse);
    ExampleTail(text);
  }

  lemma ExampleTail(text: string)
    requires text == "这是生成的 答案 希望这对你有帮助"
    ensures Strip(CutSuffixes(CutPrefixes(text, Prefixes), Suffixes)) == "答案"
  {
    ExamplePrefixes();
    ExampleSuffixes();
    ExampleAnswer();
  }

  lemma ExampleAnswer()
    ensures Strip("答案") == "答案"
  {
    var b := "答案";
    assert !IsSpace(b[0]) && !IsSpace(b[1]);
    StripTrimmed(b);
  }

  lemma ExampleNoFence()
    ensures forall p, b, c :: !GeneralMatch("这是生成的 答案 希望这对你有帮助", p, b, c)
    ensures !StartsWith(Lower("这是生成的 答案 希望这对你有帮助"), JsonLine)
  {
    var text := "这是生成的 答案 希望这对你有帮助";
    assert '`' !in text;
    NoFenceWithoutBacktick(text);
    NoJsonLineByFirst(text);
  }

  lemma ExamplePrefixes()
    ensures CutPrefixes("这是生成的 答案 希望这对你有帮助", Prefixes) == "答案 希望这对你有帮助"
  {
    var text := "这是生成的 答案 希望这对你有帮助";
    var b := "生成的 答案 希望这对你有帮助";
    var c := "答案 希望这对你有帮助";
    ExamplePrefix0();
    ExamplePrefix1();
    ExamplePrefix2();
    ExamplePrefixMisses();
    assert Prefixes[0..] == Prefixes;
    CutPrefixesStep(text, Prefixes, 0);
    CutPrefixesStep(text, Prefixes, 1);
    CutPrefixesStep(b, Prefixes, 2);
    CutPrefixesStep(c, Prefixes, 3);
    CutPrefixesStep(c, Prefixes, 4);
  }

  lemma ExamplePrefixMisses()
    ensures CutPrefix("答案 希望这对你有帮助", Prefixes[3]) == "答案 希望这对你有帮助"
    ensures CutPrefix("答案 希望这对你有帮助", Prefixes[4]) == "答案 希望这对你有帮助"
  {
    var c := "答案 希望这对你有帮助";
    assert Lower(c)[0] != Lower(Prefixes[3])[0];
    assert Lower(c)[0] != Lower(Prefixes[4])[0];
  }

  lemma CutPrefixesStep(t: string, prefixes: seq<string>, k: nat)
    requires k < |prefixes|
    ensures CutPrefixes(t, prefixes[k..]) == CutPrefixes(CutPrefix(t, prefixes[k]), prefixes[k + 1..])
  {
    assert prefixes[k..][1..] == prefixes[k + 1..];
  }

  lemma ExamplePrefix0()
    ensures CutPrefix("这是生成的 答案 希望这对你有帮助", Prefixes[0]) == "这是生成的 答案 希望这对你有帮助"
  {
    var text := "这是生成的 答案 希望这对你有帮助";
    assert Lower(text)[0] != Lower(Prefixes[0])[0];
  }

  lemma ExamplePrefix1()
    ensures CutPrefix("这是生成的 答案 希望这对你有帮助", Prefixes[1]) == "生成的 答案 希望这对你有帮助"
  {
    var text := "这是生成的 答案 希望这对你有帮助";
    assert Lower(text)[..2] == Lower(Prefixes[1]);
    assert text[2..] == "生成的 答案 希望这对你有帮助";
    assert SkipSpaces(text[2..], 0) == 0;
  }

  lemma ExamplePrefix2()
    ensures CutPrefix("生成的 答案 希望这对你有帮助", Prefixes[2]) == "答案 希望这对你有帮助"
  {
    var b := "生成的 答案 希望这对你有帮助";
    assert Lower(b)[..3] == Lower(Prefixes[2]);
    assert b[3..] == " 答案 希望这对你有帮助";
    assert SkipSpaces(b[3..], 1) == 1;
    assert SkipSpaces(b[3..], 0) == 1;
  }

  lemma ExampleSuffixes()
    ensures CutSuffixes("答案 希望这对你有帮助", Suffixes) == "答案"
  {
    var c := "答案 希望这对你有帮助";
    var d := "答案";
    ExampleSuffix0();
    ExampleSuffixMisses();
    assert Suffixes[0..] == Suffixes;
    CutSuffixesStep(c, Suffixes, 0);
    CutSuffixesStep(d, Suffixes, 1);
    CutSuffixesStep(d, Suffixes, 2);
  }

  lemma ExampleSuffixMisses()
    ensures CutSuffix("答案", Suffixes[1]) == "答案"
    ensures CutSuffix("答案", Suffixes[2]) == "答案"
  {
  }

  lemma CutSuffixesStep(t: string, suffixes: seq<string>, k: nat)
    requires k < |suffixes|
    ensures CutSuffixes(t, suffixes[k..]) == CutSuffixes(CutSuffix(t, suffixes[k]), suffixes[k + 1..])
  {
    assert suffixes[k..][1..] == suffixes[k + 1..];
  }

  lemma ExampleSuffix0()
    ensures CutSuffix("答案 希望这对你有帮助", Suffixes[0]) == "答案"
  {
    var c := "答案 希望这对你有帮助";
    ExampleSuffixFound();
    assert Find(Lower(c), Lower(Suffixes[0]), 0) == 3;
    assert c[..3] == "答案 ";
    ExampleSuffixStrip();
  }

  lemma ExampleSuffixFound()
    ensures var l := Lower("答案 希望这对你有帮助");
            var sfx := Lower(Suffixes[0]);
            && EndsWith(l, sfx) && OccursAt(l, 3, sfx)
            && !OccursAt(l, 0, sfx) && !OccursAt(l, 1, sfx) && !OccursAt(l, 2, sfx)
  {
    var c := "答案 希望这对你有帮助";
    var l := Lower(c);
    var sfx := Lower(Suffixes[0]);
    assert l == c;
    assert sfx == Suffixes[0];
    assert l[3..] == sfx;
    assert OccursAt(l, 3, sfx);
    assert !OccursAt(l, 0, sfx) by { assert l[0] != sfx[0]; }
    assert !OccursAt(l, 1, sfx) by { assert l[1] != sfx[0]; }
    assert !OccursAt(l, 2, sfx) by { assert l[2] != sfx[0]; }
  }

  lemma ExampleSuffixStrip()
    ensures RStrip("答案 ") == "答案"
  {
    assert TrailingSpaces("答案 ") == 1;
  }
}
