/**
 * `DataLoader` (src/data_loader.py): loading a dataset file or folder,
 * drawing few-shot examples, and rendering them into a prompt.
 *
 * The file system is a parameter: what kind of thing the input path is, the
 * `*.json` names a folder glob returns (in the glob's order), and what each
 * file decodes to.
 */
module Loader {

  import opened Wrappers
  import opened Text
  import opened Records

  // ---------------------------------------------------------------------
  // load_data

  datatype PathKind = Missing | RegularFile | Directory | OtherKind

  /** What `json.load` makes of one file. */
  datatype FileContent = Unreadable | JsonArray(items: seq<Record>) | JsonValue(item: Record)

  datatype Loaded = Loaded(filePaths: seq<string>, data: seq<Record>)

  /** The records one file adds: all elements of a list, the value itself
      otherwise, nothing when it cannot be read. */
  function Contribution(c: FileContent): seq<Record> {
    match c
    case Unreadable => []
    case JsonArray(items) => items
    case JsonValue(item) => [item]
  }

  /** `f(x)` for every `x` of `xs`, concatenated in order. */
  function ConcatMap<A, B>(f: A -> seq<B>, xs: seq<A>): seq<B> {
    if |xs| == 0 then []
    else ConcatMap(f, xs[..|xs| - 1]) + f(xs[|xs| - 1])
  }

  lemma {:induction false} ConcatMapAppend<A, B>(f: A -> seq<B>, a: seq<A>, b: seq<A>)
    ensures ConcatMap(f, a + b) == ConcatMap(f, a) + ConcatMap(f, b)
    decreases |b|
  {
    if |b| == 0 {
      assert a + b == a;
    } else {
      assert (a + b)[..|a + b| - 1] == a + b[..|b| - 1];
      ConcatMapAppend(f, a, b[..|b| - 1]);
    }
  }

  /** The records of the files, file after file. */
  function Flatten(paths: seq<string>, read: string -> FileContent): (r: seq<Record>)
    ensures |paths| == 0 ==> r == []
  {
    ConcatMap(p => Contribution(read(p)), paths)
  }

  /** Loading files one batch after another loads their records in order. */
  lemma FlattenAppend(a: seq<string>, b: seq<string>, read: string -> FileContent)
    ensures Flatten(a + b, read) == Flatten(a, read) + Flatten(b, read)
  {
    ConcatMapAppend(p => Contribution(read(p)), a, b);
  }

  /** The file list `load_data` uses for the input path. */
  function FilePaths(path: string, kind: PathKind, jsonFiles: seq<string>): (r: Result<seq<string>>)
    ensures r.Ok? <==> kind == RegularFile || (kind == Directory && |jsonFiles| > 0)
    ensures kind == RegularFile ==> r == Ok([path])
    ensures kind == Directory && |jsonFiles| > 0 ==> r == Ok(jsonFiles)
  {
    match kind
    case Missing => Err(FileNotFound(MissingPath))
    case RegularFile => Ok([path])
    case Directory => if |jsonFiles| == 0 then Err(FileNotFound(NoJsonFiles)) else Ok(jsonFiles)
    case OtherKind => Err(ValueError(NotFileOrDirectory))
  }

  /** `DataLoader(path)`: the file list and the flattened records. */
  function Load(path: string, kind: PathKind, jsonFiles: seq<string>, read: string -> FileContent): (r: Result<Loaded>)
    ensures kind == Missing ==> r == Err(FileNotFound(MissingPath))
    ensures kind == Directory && |jsonFiles| == 0 ==> r == Err(FileNotFound(NoJsonFiles))
    ensures kind == OtherKind ==> r == Err(ValueError(NotFileOrDirectory))
    ensures r.Ok? ==> FilePaths(path, kind, jsonFiles) == Ok(r.value.filePaths)
    ensures r.Ok? ==> r.value.data == Flatten(r.value.filePaths, read) && |r.value.data| > 0
    ensures FilePaths(path, kind, jsonFiles).Ok? && |Flatten(FilePaths(path, kind, jsonFiles).value, read)| == 0
            ==> r == Err(GenericException(NoData))
  {
    var paths :- FilePaths(path, kind, jsonFiles);
    var data := Flatten(paths, read);
    if |data| == 0 then Err(GenericException(NoData)) else Ok(Loaded(paths, data))
  }

  /** A single readable file: its list elements, or the value itself. */
  lemma LoadSingleFile(path: string, read: string -> FileContent, jsonFiles: seq<string>)
    requires read(path) != Unreadable
    requires read(path).JsonArray? ==> |read(path).items| > 0
    ensures Load(path, RegularFile, jsonFiles, read).Ok?
    ensures read(path).JsonArray? ==> Load(path, RegularFile, jsonFiles, read).value.data == read(path).items
    ensures read(path).JsonValue? ==> Load(path, RegularFile, jsonFiles, read).value.data == [read(path).item]
  {
    var f := p => Contribution(read(p));
    assert [path][..0] == [];
    assert ConcatMap(f, [path]) == ConcatMap(f, []) + f(path);
    assert Flatten([path], read) == Contribution(read(path));
  }

  // ---------------------------------------------------------------------
  // get_random_samples

  function Min(a: int, b: int): int {
    if a <= b then a else b
  }

  /** The range `random.randint` draws the sample count from. */
  function CountRange(size: nat, minSamples: int, maxSamples: int): (r: (int, int))
    ensures r.0 <= r.1 <= size
    ensures r.1 <= maxSamples && r.0 <= minSamples
    ensures r.1 == maxSamples || r.1 == size
    ensures r.0 == minSamples || r.0 == r.1
  {
    var hi := Min(maxSamples, size);
    (Min(minSamples, hi), hi)
  }

  /** Distinct positions of a sequence of length `size`. */
  predicate DistinctPositions(positions: seq<nat>, size: nat) {
    && (forall k :: 0 <= k < |positions| ==> positions[k] < size)
    && (forall i, j :: 0 <= i < j < |positions| ==> positions[i] != positions[j])
  }

  /** What `random.randint` and `random.sample` may return: a count in the
      drawn range and, when it is not negative, that many distinct positions. */
  predicate ValidDraw(size: nat, minSamples: int, maxSamples: int, count: int, positions: seq<nat>) {
    var (lo, hi) := CountRange(size, minSamples, maxSamples);
    && lo <= count <= hi
    && (count >= 0 ==> |positions| == count && DistinctPositions(positions, size))
  }

  /** The records at `positions`, in the order drawn. */
  function Picks(data: seq<Record>, positions: seq<nat>): (r: seq<Record>)
    requires forall k :: 0 <= k < |positions| ==> positions[k] < |data|
    ensures |r| == |positions|
    ensures forall k :: 0 <= k < |r| ==> r[k] == data[positions[k]]
  {
    seq(|positions|, k requires 0 <= k < |positions| => data[positions[k]])
  }

  /** `get_random_samples(min, max)` for the random draw `(count, positions)`. */
  function RandomSamples(data: seq<Record>, minSamples: int, maxSamples: int,
                         count: int, positions: seq<nat>): (r: Result<seq<Record>>)
    requires |data| > 0 ==> ValidDraw(|data|, minSamples, maxSamples, count, positions)
    ensures |data| == 0 ==> r == Err(ValueError(EmptyDataset))
    ensures |data| > 0 && count < 0 ==> r == Err(ValueError(NegativeSampleCount))
    ensures r.Ok? ==> |r.value| == count
    ensures r.Ok? ==> forall k :: 0 <= k < |r.value| ==> r.value[k] == data[positions[k]]
  {
    if |data| == 0 then Err(ValueError(EmptyDataset))
    else if count < 0 then Err(ValueError(NegativeSampleCount))
    else Ok(Picks(data, positions))
  }

  /** The sample size lies between the clamped bounds, and non-negative
      bounds always yield a sample from a non-empty dataset. */
  lemma SampleSize(data: seq<Record>, minSamples: int, maxSamples: int, count: int, positions: seq<nat>)
    requires |data| > 0 && ValidDraw(|data|, minSamples, maxSamples, count, positions)
    requires 0 <= minSamples && 0 <= maxSamples
    ensures RandomSamples(data, minSamples, maxSamples, count, positions).Ok?
    ensures var m := Min(maxSamples, |data|);
            Min(minSamples, m) <= |RandomSamples(data, minSamples, maxSamples, count, positions).value| <= m
  {
  }

  /** Records picked at distinct positions are drawn without replacement:
      no record occurs among them more often than in the dataset. */
  lemma {:induction false} PicksSubMultiset(data: seq<Record>, positions: seq<nat>)
    requires DistinctPositions(positions, |data|)
    ensures multiset(Picks(data, positions)) <= multiset(data)
    decreases |positions|
  {
    if |positions| > 0 {
      var rest, shifted := DropLastPick(data, positions);
      PicksSubMultiset(rest, shifted);
    }
  }

  /** Taking out the record at the last position leaves the other picks as
      picks, at shifted positions, of the remaining records. */
  lemma DropLastPick(data: seq<Record>, positions: seq<nat>) returns (rest: seq<Record>, shifted: seq<nat>)
    requires |positions| > 0 && DistinctPositions(positions, |data|)
    ensures |shifted| == |positions| - 1 && DistinctPositions(shifted, |rest|)
    ensures var p := positions[|positions| - 1];
            && Picks(data, positions) == Picks(rest, shifted) + [data[p]]
            && multiset(data) == multiset(rest) + multiset{data[p]}
  {
    var n := |positions| - 1;
    var p := positions[n];
    rest := data[..p] + data[p + 1..];
    shifted := seq(n, k requires 0 <= k < n => if positions[k] < p then positions[k] else positions[k] - 1);
    forall k | 0 <= k < n
      ensures shifted[k] < |rest| && rest[shifted[k]] == data[positions[k]]
    {
      assert positions[k] != p;
    }
    assert DistinctPositions(shifted, |rest|) by {
      forall i, j | 0 <= i < j < n ensures shifted[i] != shifted[j] {
        assert positions[i] != p && positions[j] != p && positions[i] != positions[j];
      }
    }
    assert Picks(data, positions) == Picks(rest, shifted) + [data[p]];
    assert multiset(data) == multiset(rest) + multiset{data[p]} by {
      assert data == data[..p] + [data[p]] + data[p + 1..];
    }
  }

  /** Sampling without replacement: the sample is a sub-multiset of the
      dataset, so it is never longer than the dataset. */
  lemma SamplesWithoutReplacement(data: seq<Record>, minSamples: int, maxSamples: int,
                                  count: int, positions: seq<nat>)
    requires |data| > 0 && ValidDraw(|data|, minSamples, maxSamples, count, positions)
    requires RandomSamples(data, minSamples, maxSamples, count, positions).Ok?
    ensures multiset(RandomSamples(data, minSamples, maxSamples, count, positions).value) <= multiset(data)
  {
    PicksSubMultiset(data, positions);
  }

  // ---------------------------------------------------------------------
  // format_examples

  /** The heading of the example at 0-based position `i`. */
  function ExampleLabel(i: nat): string {
    "示例 " + NatToString(i + 1) + ":\n"
  }

  /** The block for the example at 0-based position `i`. */
  function ExampleBlock(i: nat, example: Record): string {
    ExampleLabel(i)
    + "instruction: " + Get(example, InstructionKey) + "\n"
    + "input: " + Get(example, InputKey) + "\n"
    + "output: " + Get(example, OutputKey) + "\n\n"
  }

  /** The blocks of `xs`, the first numbered `start`, one after another. */
  function JoinBlocks<T>(block: (nat, T) -> string, start: nat, xs: seq<T>): string
    decreases |xs|
  {
    if |xs| == 0 then ""
    else block(start, xs[0]) + JoinBlocks(block, start + 1, xs[1..])
  }

  /** The rendering of `examples`, numbered from position `start`. */
  function FormatFrom(start: nat, examples: seq<Record>): string {
    JoinBlocks(ExampleBlock, start, examples)
  }

  /** `format_examples(examples)`, accumulating one block per example. */
  method FormatExamples(examples: seq<Record>) returns (formatted: string)
    ensures formatted == FormatFrom(0, examples)
    ensures |examples| == 0 ==> formatted == ""
  {
    formatted := "";
    var i := 0;
    while i < |examples|
      invariant 0 <= i <= |examples|
      invariant formatted + FormatFrom(i, examples[i..]) == FormatFrom(0, examples)
    {
      FormatFromStep(i, examples);
      formatted := formatted + ExampleBlock(i, examples[i]);
      i := i + 1;
    }
    assert examples[i..] == [];
  }

  /** The rendering from position `i` is the block at `i` followed by the
      rendering of the rest. */
  lemma FormatFromStep(i: nat, examples: seq<Record>)
    requires i < |examples|
    ensures FormatFrom(i, examples[i..]) == ExampleBlock(i, examples[i]) + FormatFrom(i + 1, examples[i + 1..])
  {
    assert examples[i..][1..] == examples[i + 1..];
  }

  /** Joining a list is joining its two halves, the second numbered on
      from where the first stopped. */
  lemma {:induction false} JoinBlocksAppend<T>(block: (nat, T) -> string, start: nat, a: seq<T>, b: seq<T>)
    ensures JoinBlocks(block, start, a + b) == JoinBlocks(block, start, a) + JoinBlocks(block, start + |a|, b)
    decreases |a|
  {
    if |a| == 0 {
      assert a + b == b;
    } else {
      assert (a + b)[1..] == a[1..] + b;
      JoinBlocksAppend(block, start + 1, a[1..], b);
    }
  }

  /** Formatting a list is formatting its two halves, the second numbered on
      from where the first stopped. */
  lemma FormatFromAppend(start: nat, a: seq<Record>, b: seq<Record>)
    ensures FormatFrom(start, a + b) == FormatFrom(start, a) + FormatFrom(start + |a|, b)
  {
    JoinBlocksAppend(ExampleBlock, start, a, b);
  }

  /** Example blocks carry distinct labels: the label names the example's
      1-based position. */
  lemma LabelsDistinct(i: nat, j: nat)
    requires ExampleLabel(i) == ExampleLabel(j)
    ensures i == j
  {
    var li, lj := ExampleLabel(i), ExampleLabel(j);
    assert li[3..|li| - 2] == NatToString(i + 1);
    assert lj[3..|lj| - 2] == NatToString(j + 1);
    NatToStringInjective(i + 1, j + 1);
  }
}
