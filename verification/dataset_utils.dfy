/**
 * The dataset helpers of src/utils.py: merging files, splitting one into a
 * training and a validation part, and the length statistics of its fields.
 *
 * Reading a path gives a `DataFile`; the shuffle's result and the clock's
 * timestamp are parameters; writes are recorded as `Save`s and succeed.
 */
module DatasetUtils {

  import opened Wrappers
  import opened Text
  import opened Paths
  import opened Records
  import opened Loader
  import opened Slices
  import opened Orchestration

  /** A path as the helpers see it: missing, or present with its content. */
  datatype DataFile = NoFile | Present(content: FileContent)

  // ---------------------------------------------------------------------
  // merge_datasets

  /** What one file adds to a merge: its records when it holds a JSON list,
      nothing when it is missing, unreadable or holds another value. */
  function MergeContribution(f: DataFile): seq<Record> {
    if f.Present? && f.content.JsonArray? then f.content.items else []
  }

  /** The records `merge_datasets(paths, output)` writes. */
  function MergedRecords(paths: seq<string>, read: string -> DataFile): seq<Record> {
    ConcatMap(p => MergeContribution(read(p)), paths)
  }

  /** `merge_datasets(paths, output)`: one write of the merged records. */
  function MergeDatasets(paths: seq<string>, read: string -> DataFile, output: string): (s: Save<Record>)
    ensures s.path == output
    ensures s.data == MergedRecords(paths, read)
  {
    Save(output, MergedRecords(paths, read))
  }

  /** Merging two batches of paths merges their records in order. */
  lemma MergeAppend(a: seq<string>, b: seq<string>, read: string -> DataFile)
    ensures MergedRecords(a + b, read) == MergedRecords(a, read) + MergedRecords(b, read)
  {
    ConcatMapAppend(p => MergeContribution(read(p)), a, b);
  }

  /** One path contributes its list, or nothing. */
  lemma MergeOne(p: string, read: string -> DataFile)
    ensures read(p).Present? && read(p).content.JsonArray? ==> MergedRecords([p], read) == read(p).content.items
    ensures !(read(p).Present? && read(p).content.JsonArray?) ==> MergedRecords([p], read) == []
  {
    assert [p] == [] + [p];
    MergeAppend([], [p], read);
  }

  /** Every merged record comes from a path holding a list. */
  lemma {:induction false} MergedFromLists(paths: seq<string>, read: string -> DataFile, x: Record)
    requires x in MergedRecords(paths, read)
    ensures exists k :: 0 <= k < |paths| && read(paths[k]).Present? && read(paths[k]).content.JsonArray?
                        && x in read(paths[k]).content.items
  {
    var n := |paths|;
    var init := paths[..n - 1];
    assert paths == init + [paths[n - 1]];
    MergeAppend(init, [paths[n - 1]], read);
    MergeOne(paths[n - 1], read);
    if x in MergedRecords(init, read) {
      MergedFromLists(init, read, x);
      var k :| 0 <= k < |init| && read(init[k]).Present? && read(init[k]).content.JsonArray?
               && x in read(init[k]).content.items;
      assert paths[k] == init[k];
    } else {
      assert x in read(paths[n - 1]).content.items;
    }
  }

  // ---------------------------------------------------------------------
  // split_dataset

  /** Python's `int(x)`: truncation toward zero. */
  function Trunc(x: real): (i: int)
    ensures x >= 0.0 ==> i as real <= x < i as real + 1.0
    ensures x < 0.0 ==> i as real - 1.0 < x <= i as real
  {
    if x >= 0.0 then x.Floor else -((-x).Floor)
  }

  /** `int(len(data) * train_ratio)`, with exact arithmetic. */
  function SplitIndex(n: nat, ratio: real): int {
    Trunc(n as real * ratio)
  }

  /** A ratio between 0 and 1 puts the split point within the data. */
  lemma SplitIndexInRange(n: nat, ratio: real)
    requires 0.0 <= ratio <= 1.0
    ensures 0 <= SplitIndex(n, ratio) <= n
  {
    ScaleDown(n as real, ratio);
  }

  lemma ScaleDown(a: real, ratio: real)
    requires a >= 0.0 && 0.0 <= ratio <= 1.0
    ensures 0.0 <= a * ratio <= a
  {
    assert a - a * ratio == a * (1.0 - ratio);
  }

  const TrainTag: string := "_train_"
  const ValTag: string := "_val_"

  /** The two output paths: the input's name without extension, `_train_`
      or `_val_`, the timestamp and `.json`, in the output directory (the
      input's directory when none is given). */
  datatype SplitFiles = SplitFiles(train: string, val: string)

  /** The name of one split file: stem, tag, timestamp and `.json`. */
  function TagName(base: string, tag: string, stamp: string): string {
    base + tag + stamp + JsonExt
  }

  function SplitNames(file: string, outputDir: Option<string>, stamp: string): (r: SplitFiles)
    ensures Sep !in stamp ==>
              var base := SplitextRoot(Basename(file));
              && Basename(r.train) == base + TrainTag + stamp + JsonExt
              && Basename(r.val) == base + ValTag + stamp + JsonExt
    ensures Sep !in stamp ==> r.train != r.val
  {
    var dir := outputDir.GetOr(Dirname(file));
    var base := SplitextRoot(Basename(file));
    if Sep !in stamp then
      RootOfBasenameSepFree(file);
      JoinedNames(dir, base, stamp);
      SplitFiles(Join(dir, TagName(base, TrainTag, stamp)), Join(dir, TagName(base, ValTag, stamp)))
    else SplitFiles(Join(dir, TagName(base, TrainTag, stamp)), Join(dir, TagName(base, ValTag, stamp)))
  }

  lemma TagNameSepFree(base: string, tag: string, stamp: string)
    requires Sep !in base && Sep !in tag && Sep !in stamp
    ensures Sep !in TagName(base, tag, stamp)
  {
    assert Sep !in JsonExt;
    var n := TagName(base, tag, stamp);
    forall k | 0 <= k < |n|
      ensures n[k] != Sep
    {
      if k < |base| {
        assert n[k] == base[k];
      } else if k < |base| + |tag| {
        assert n[k] == tag[k - |base|];
      } else if k < |base| + |tag| + |stamp| {
        assert n[k] == stamp[k - |base| - |tag|];
      } else {
        assert n[k] == JsonExt[k - |base| - |tag| - |stamp|];
      }
    }
  }

  /** Both split files keep their names once joined to the directory, and
      the two joined paths differ. */
  lemma JoinedNames(dir: string, base: string, stamp: string)
    requires Sep !in base && Sep !in stamp
    ensures Basename(Join(dir, TagName(base, TrainTag, stamp))) == base + TrainTag + stamp + JsonExt
    ensures Basename(Join(dir, TagName(base, ValTag, stamp))) == base + ValTag + stamp + JsonExt
    ensures Join(dir, TagName(base, TrainTag, stamp)) != Join(dir, TagName(base, ValTag, stamp))
  {
    var train, val := TagName(base, TrainTag, stamp), TagName(base, ValTag, stamp);
    TagFacts();
    TagNameSepFree(base, TrainTag, stamp);
    TagNameSepFree(base, ValTag, stamp);
    BasenameOfJoin(dir, train);
    BasenameOfJoin(dir, val);
    DifferAt(base, TrainTag, ValTag, stamp);
    JoinDistinct(dir, train, val);
  }

  lemma TagFacts()
    ensures Sep !in TrainTag && Sep !in ValTag
    ensures |TrainTag| > 1 && |ValTag| > 1 && TrainTag[1] != ValTag[1]
  {
  }

  /** Two names that differ in the second character of their tag differ. */
  lemma DifferAt(base: string, a: string, b: string, stamp: string)
    requires |a| > 1 && |b| > 1 && a[1] != b[1]
    ensures TagName(base, a, stamp) != TagName(base, b, stamp)
  {
    assert TagName(base, a, stamp)[|base| + 1] == a[1];
    assert TagName(base, b, stamp)[|base| + 1] == b[1];
  }

  /** What `split_dataset` returns and writes. */
  datatype SplitRun = SplitRun(files: SplitFiles, train: seq<Record>, val: seq<Record>, saves: seq<Save<Record>>)

  /** `split_dataset(path, ratio, output_dir)`. `shuffled` is the order
      `random.shuffle` leaves the records in. Shuffling a JSON object looks
      up integer keys, which raises `KeyError` once it has two entries; a
      smaller one fails when it is sliced, with `TypeError` (an unhashable
      slice) up to Python 3.11 and `KeyError` from Python 3.12. */
  function SplitDataset(file: string, found: DataFile, ratio: real, outputDir: Option<string>, stamp: string,
                        shuffled: seq<Record>): (r: Result<SplitRun>)
    requires found.Present? && found.content.JsonArray? ==> multiset(shuffled) == multiset(found.content.items)
    ensures found.NoFile? ==> r == Err(FileNotFound(MissingPath))
    ensures found.Present? && found.content.Unreadable? ==> r == Err(GenericException(UnreadableFile))
    ensures found.Present? && found.content.JsonValue? ==>
              r == Err(if |found.content.item| >= 2 then KeyError else TypeError)
    ensures r.Ok? <==> found.Present? && found.content.JsonArray?
    ensures r.Ok? ==>
              && r.value.files == SplitNames(file, outputDir, stamp)
              && r.value.train + r.value.val == shuffled
              && multiset(r.value.train) + multiset(r.value.val) == multiset(found.content.items)
              && |r.value.train| == Bound(|shuffled|, SplitIndex(|shuffled|, ratio))
              && r.value.saves == [Save(r.value.files.train, r.value.train), Save(r.value.files.val, r.value.val)]
  {
    match found
    case NoFile => Err(FileNotFound(MissingPath))
    case Present(Unreadable) => Err(GenericException(UnreadableFile))
    case Present(JsonValue(item)) => Err(if |item| >= 2 then KeyError else TypeError)
    case Present(JsonArray(items)) =>
      var idx := SplitIndex(|shuffled|, ratio);
      var train := SliceTo(shuffled, idx);
      var val := SliceFrom(shuffled, idx);
      SliceSplit(shuffled, idx);
      var files := SplitNames(file, outputDir, stamp);
      Ok(SplitRun(files, train, val, [Save(files.train, train), Save(files.val, val)]))
  }

  /** With a ratio between 0 and 1 the training part holds exactly the
      first `int(len * ratio)` shuffled records. */
  lemma SplitSizes(file: string, items: seq<Record>, ratio: real, outputDir: Option<string>, stamp: string,
                   shuffled: seq<Record>)
    requires multiset(shuffled) == multiset(items)
    requires 0.0 <= ratio <= 1.0
    ensures var r := SplitDataset(file, Present(JsonArray(items)), ratio, outputDir, stamp, shuffled).value;
            && |r.train| == SplitIndex(|items|, ratio)
            && |r.val| == |items| - SplitIndex(|items|, ratio)
  {
    assert |shuffled| == |multiset(shuffled)| == |items|;
    SplitIndexInRange(|items|, ratio);
  }

  // ---------------------------------------------------------------------
  // analyze_dataset

  /** The length statistics of one field: the minimum (`None` standing for
      the initial infinity), the maximum (starting at 0) and the total. */
  datatype FieldStats = FieldStats(min: Option<nat>, max: nat, total: nat)

  /** `len(item.get(key, ""))` */
  function FieldLen(item: Record, key: string): nat {
    |Get(item, key)|
  }

  function MinOf(a: Option<nat>, b: nat): nat {
    if a.Some? && a.value < b then a.value else b
  }

  /** Reference definitions of the three statistics. */
  function MinLen(items: seq<Record>, key: string): (m: Option<nat>)
    ensures m.Some? <==> |items| > 0
  {
    if |items| == 0 then None
    else Some(MinOf(MinLen(items[..|items| - 1], key), FieldLen(items[|items| - 1], key)))
  }

  function MaxLen(items: seq<Record>, key: string): nat {
    if |items| == 0 then 0
    else
      var m := MaxLen(items[..|items| - 1], key);
      var l := FieldLen(items[|items| - 1], key);
      if m < l then l else m
  }

  function TotalLen(items: seq<Record>, key: string): nat {
    if |items| == 0 then 0 else TotalLen(items[..|items| - 1], key) + FieldLen(items[|items| - 1], key)
  }

  /** With no items the statistics keep their initial values. */
  lemma NoItems(key: string)
    ensures MinLen([], key) == None && MaxLen([], key) == 0 && TotalLen([], key) == 0
  {
  }

  /** Every item's length lies between the minimum and the maximum. */
  lemma {:induction false} LengthBounds(items: seq<Record>, key: string)
    ensures forall i :: 0 <= i < |items| ==>
              MinLen(items, key).value <= FieldLen(items[i], key) <= MaxLen(items, key)
  {
    if |items| > 0 {
      var n := |items|;
      var init := items[..n - 1];
      LengthBounds(init, key);
      forall i | 0 <= i < n
        ensures MinLen(items, key).value <= FieldLen(items[i], key) <= MaxLen(items, key)
      {
        if i < n - 1 {
          assert items[i] == init[i];
        }
      }
    }
  }

  /** The maximum is the length of some item. */
  lemma {:induction false} MaxAttained(items: seq<Record>, key: string)
    requires |items| > 0
    ensures exists i :: 0 <= i < |items| && FieldLen(items[i], key) == MaxLen(items, key)
  {
    var n := |items|;
    var init := items[..n - 1];
    if n > 1 && MaxLen(items, key) == MaxLen(init, key) {
      MaxAttained(init, key);
      var a :| 0 <= a < |init| && FieldLen(init[a], key) == MaxLen(init, key);
      assert items[a] == init[a];
    } else {
      assert FieldLen(items[n - 1], key) == MaxLen(items, key);
    }
  }

  /** The minimum is the length of some item. */
  lemma {:induction false} MinAttained(items: seq<Record>, key: string)
    requires |items| > 0
    ensures exists i :: 0 <= i < |items| && FieldLen(items[i], key) == MinLen(items, key).value
  {
    var n := |items|;
    var init := items[..n - 1];
    if n > 1 && MinLen(items, key).value == MinLen(init, key).value {
      MinAttained(init, key);
      var a :| 0 <= a < |init| && FieldLen(init[a], key) == MinLen(init, key).value;
      assert items[a] == init[a];
    } else {
      assert FieldLen(items[n - 1], key) == MinLen(items, key).value;
    }
  }

  /** What `analyze_dataset` returns (the averages are left out). */
  datatype DatasetStats = DatasetStats(totalSamples: nat, instruction: FieldStats, input: FieldStats,
                                       output: FieldStats)

  const NoStats := FieldStats(None, 0, 0)

  /** One field's statistics, accumulated over the items in order. */
  method FieldLengths(items: seq<Record>, key: string) returns (s: FieldStats)
    ensures s == FieldStats(MinLen(items, key), MaxLen(items, key), TotalLen(items, key))
  {
    s := NoStats;
    var i := 0;
    while i < |items|
      invariant 0 <= i <= |items|
      invariant s == FieldStats(MinLen(items[..i], key), MaxLen(items[..i], key), TotalLen(items[..i], key))
    {
      var l := FieldLen(items[i], key);
      s := FieldStats(Some(MinOf(s.min, l)), if s.max < l then l else s.max, s.total + l);
      assert items[..i + 1][..i] == items[..i];
      i := i + 1;
    }
    assert items[..i] == items;
  }

  /** `analyze_dataset(path)`. A JSON object is iterated by its keys, which
      have no `get`: only an empty one gets through, with zero samples. */
  method AnalyzeDataset(found: DataFile) returns (r: Result<DatasetStats>)
    ensures found.NoFile? ==> r == Err(FileNotFound(MissingPath))
    ensures found.Present? && found.content.Unreadable? ==> r == Err(GenericException(UnreadableFile))
    ensures found.Present? && found.content.JsonValue? ==>
              r == if |found.content.item| == 0 then Ok(DatasetStats(0, NoStats, NoStats, NoStats)) else Err(AttributeError)
    ensures found.Present? && found.content.JsonArray? ==>
              var items := found.content.items;
              r == Ok(DatasetStats(|items|,
                        FieldStats(MinLen(items, InstructionKey), MaxLen(items, InstructionKey), TotalLen(items, InstructionKey)),
                        FieldStats(MinLen(items, InputKey), MaxLen(items, InputKey), TotalLen(items, InputKey)),
                        FieldStats(MinLen(items, OutputKey), MaxLen(items, OutputKey), TotalLen(items, OutputKey))))
  {
    match found
    case NoFile => r := Err(FileNotFound(MissingPath));
    case Present(Unreadable) => r := Err(GenericException(UnreadableFile));
    case Present(JsonValue(item)) =>
      r := if |item| == 0 then Ok(DatasetStats(0, NoStats, NoStats, NoStats)) else Err(AttributeError);
    case Present(JsonArray(items)) =>
      var instruction := FieldLengths(items, InstructionKey);
      var input := FieldLengths(items, InputKey);
      var output := FieldLengths(items, OutputKey);
      r := Ok(DatasetStats(|items|, instruction, input, output));
  }
}
