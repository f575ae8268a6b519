/**
 * Producing a dataset (`generate_dataset` of src/data_generator.py and of
 * src/dataset_generators/base_generator.py): the sequential run, the
 * concurrent run, and the folder mode that generates one output file per
 * input file.
 *
 * A task's outcome is the record it produced, or `None` when generating it
 * raised (the loops swallow every exception). Writing a file is recorded as
 * a `Save` and assumed to succeed. The order in which concurrent tasks
 * complete and the clock's timestamps are parameters.
 */
module Orchestration {

  import opened Wrappers
  import opened Text
  import opened Paths
  import opened Records
  import opened Loader
  import opened Extraction
  import opened Execution
  import opened Pipelines

  /** Intermediate saves happen every this many samples. */
  const SaveEvery: nat := 10

  /** `range(num_samples)` is empty for a negative count. */
  function TaskCount(numSamples: int): nat {
    if numSamples < 0 then 0 else numSamples
  }

  /** One `save_data(data, path)`. */
  datatype Save<T> = Save(path: string, data: seq<T>)

  /** The list a run returns and the files it wrote, in order. */
  datatype Generated<T> = Generated(data: seq<T>, saves: seq<Save<T>>)

  function SavesTo<T>(path: string, snapshots: seq<seq<T>>): (r: seq<Save<T>>)
    ensures |r| == |snapshots|
    ensures forall k :: 0 <= k < |r| ==> r[k] == Save(path, snapshots[k])
  {
    seq(|snapshots|, k requires 0 <= k < |snapshots| => Save(path, snapshots[k]))
  }

  // ---------------------------------------------------------------------
  // Sequential and concurrent runs

  /** `_generate_dataset_sequential`: the successes in task order; a save
      after every tenth task when that task succeeded, and a final save that
      is made even when nothing was generated. */
  function Sequential<T(==)>(outcomes: seq<Option<T>>, output: string): (r: Generated<T>)
    ensures r.data == Successes(outcomes)
    ensures |r.saves| > 0 && r.saves[|r.saves| - 1] == Save(output, r.data)
    ensures forall k :: 0 <= k < |r.saves| ==> r.saves[k].path == output && IsPrefix(r.saves[k].data, r.data)
  {
    var data := Successes(outcomes);
    var periodic := PeriodicSaves(outcomes, SaveEvery);
    PeriodicSavesArePrefixes(outcomes, SaveEvery);
    Generated(data, SavesTo(output, periodic) + [Save(output, data)])
  }

  /** `_generate_dataset_concurrent`: the successes in task order whatever
      the completion order; a snapshot after every tenth completion when some
      task has succeeded, and a final save only when the list is not empty. */
  function Concurrent<T(==)>(outcomes: seq<Option<T>>, order: seq<nat>, output: string): (r: Generated<T>)
    requires CoversTasks(order, |outcomes|)
    ensures r.data == Successes(outcomes)
    ensures forall k :: 0 <= k < |r.saves| ==>
              r.saves[k].path == output && |r.saves[k].data| > 0 && IsSubsequence(r.saves[k].data, r.data)
    ensures |r.data| > 0 ==> |r.saves| > 0 && r.saves[|r.saves| - 1] == Save(output, r.data)
    ensures |r.data| == 0 ==> r.saves == []
  {
    var data := ConcurrentResult(outcomes, order);
    var snapshots := ConcurrentSaves(Views(outcomes, order), SaveEvery);
    SnapshotsAreSubsequences(outcomes, order, SaveEvery);
    if |data| == 0 then
      NoSnapshotOfNothing(snapshots, data);
      Generated(data, [])
    else
      SnapshotsIndexed(snapshots, data);
      SubsequenceReflexive(data);
      Generated(data, SavesTo(output, snapshots) + [Save(output, data)])
  }

  lemma NoSnapshotOfNothing<T>(snapshots: seq<seq<T>>, data: seq<T>)
    requires |data| == 0
    requires forall s :: s in snapshots ==> |s| > 0 && IsSubsequence(s, data)
    ensures snapshots == []
  {
    if |snapshots| > 0 {
      FirstIsMember(snapshots);
    }
  }

  lemma FirstIsMember<T>(xs: seq<T>)
    requires |xs| > 0
    ensures xs[0] in xs
  {
  }

  lemma SnapshotsIndexed<T>(snapshots: seq<seq<T>>, data: seq<T>)
    requires forall s :: s in snapshots ==> |s| > 0 && IsSubsequence(s, data)
    ensures forall k :: 0 <= k < |snapshots| ==> |snapshots[k]| > 0 && IsSubsequence(snapshots[k], data)
  {
    forall k | 0 <= k < |snapshots| ensures |snapshots[k]| > 0 && IsSubsequence(snapshots[k], data) {
      assert snapshots[k] in snapshots;
    }
  }

  /** The sequential and the concurrent run return the same list for the
      same task outcomes, and the concurrent run never leaves behind a file
      with an empty list. */
  lemma SequentialMatchesConcurrent<T>(outcomes: seq<Option<T>>, order: seq<nat>, output: string)
    requires CoversTasks(order, |outcomes|)
    ensures Sequential(outcomes, output).data == Concurrent(outcomes, order, output).data
    ensures forall s :: s in Concurrent(outcomes, order, output).saves ==> |s.data| > 0
  {
    var r := Concurrent(outcomes, order, output);
    forall s | s in r.saves ensures |s.data| > 0 {
      var k :| 0 <= k < |r.saves| && r.saves[k] == s;
    }
  }

  /** When every task fails, the sequential run still writes one empty
      list, and the concurrent run writes nothing. */
  lemma AllFailed<T>(outcomes: seq<Option<T>>, order: seq<nat>, output: string)
    requires CoversTasks(order, |outcomes|)
    requires forall i :: 0 <= i < |outcomes| ==> outcomes[i].None?
    ensures Sequential(outcomes, output) == Generated([], [Save(output, [])])
    ensures Concurrent(outcomes, order, output) == Generated([], [])
  {
    SuccessesEmpty(outcomes);
    NoPeriodicSave(outcomes, SaveEvery);
  }

  /** Merged mode: the concurrent run when more than one request may be in
      flight, the sequential run otherwise. */
  function Merged<T(==)>(outcomes: seq<Option<T>>, order: seq<nat>, output: string, concurrency: int): (r: Generated<T>)
    requires CoversTasks(order, |outcomes|)
    ensures r.data == Successes(outcomes)
    ensures concurrency > 1 ==> r == Concurrent(outcomes, order, output)
    ensures concurrency <= 1 ==> r == Sequential(outcomes, output)
  {
    if concurrency > 1 then Concurrent(outcomes, order, output) else Sequential(outcomes, output)
  }

  // ---------------------------------------------------------------------
  // Task outcomes of the DataGenerator

  /** The outcomes of `DataGenerator`'s tasks: task `i` asks with `asks[i]`
      and draws `seeds[i]` when it needs a seed instruction. */
  function SftOutcomes(asks: seq<Ask>, parse: JsonParser, mode: string, fixed: Option<string>, seeds: seq<Record>)
    : (r: seq<Option<SftRecord>>)
    requires |seeds| == |asks|
    ensures |r| == |asks|
    ensures forall i :: 0 <= i < |r| ==> (r[i].Some? <==> SftSample(asks[i], parse, mode, fixed, seeds[i]).result.Ok?)
  {
    seq(|asks|, i requires 0 <= i < |asks| => Outcome(SftSample(asks[i], parse, mode, fixed, seeds[i])))
  }

  /** The mode is checked inside each task, so an unsupported mode fails
      every task instead of the call: the sequential run returns and saves an
      empty list. */
  lemma UnsupportedModeGeneratesNothing(asks: seq<Ask>, parse: JsonParser, mode: string, fixed: Option<string>,
                                        seeds: seq<Record>, output: string)
    requires |seeds| == |asks|
    requires mode != CompleteMode && mode != InputOutputMode
    ensures Sequential(SftOutcomes(asks, parse, mode, fixed, seeds), output) == Generated([], [Save(output, [])])
  {
    var outcomes := SftOutcomes(asks, parse, mode, fixed, seeds);
    SuccessesEmpty(outcomes);
    NoPeriodicSave(outcomes, SaveEvery);
  }

  // ---------------------------------------------------------------------
  // Folder mode: one output file per input file

  /** Which `generate_dataset_for_folder_separate` runs. The DataGenerator
      builds a per-file generator that neither snapshots nor saves. The base
      generator rebuilds itself as `self.__class__(model_caller=,
      data_loader=, sample_min=, sample_max=)` and reruns its own sequential
      or concurrent run per file; `rebuilds` is whether that constructor call
      is accepted. */
  datatype Variant = DataGeneratorRun | BaseGeneratorRun(rebuilds: bool)

  /** One input file: whether `DataLoader(path)` succeeds, the timestamp
      read while naming its output, and its tasks. */
  datatype FileTask<T> = FileTask(path: string, loads: bool, stamp: string, outcomes: seq<Option<T>>, order: seq<nat>)

  predicate ValidTask<T>(t: FileTask<T>) {
    CoversTasks(t.order, |t.outcomes|)
  }

  /** One entry of `file_results`. */
  datatype FileResult<T> = FileResult(fileName: string, outputPath: string, dataCount: nat, data: seq<T>)

  /** What a folder run returns and writes. */
  datatype FolderRun<T> = FolderRun(allData: seq<T>, fileResults: seq<FileResult<T>>, saves: seq<Save<T>>)

  /** The output file name for an input file: a custom name (given `.json`
      if it lacks it), or the input's stem with a timestamp. */
  function OutputName(fileName: string, custom: map<string, string>, stamp: string): (r: string)
    ensures EndsWith(r, JsonExt)
    ensures fileName in custom ==> r == EnsureJsonExt(custom[fileName])
    ensures fileName !in custom ==> StartsWith(r, SplitextRoot(fileName) + "_" + stamp)
  {
    if fileName in custom then EnsureJsonExt(custom[fileName])
    else
      var r := SplitextRoot(fileName) + "_" + stamp + JsonExt;
      assert r[|r| - |JsonExt|..] == JsonExt;
      assert r[..|SplitextRoot(fileName) + "_" + stamp|] == SplitextRoot(fileName) + "_" + stamp;
      r
  }

  /** A default output name splits back into the input's stem and the
      timestamp. */
  lemma DefaultNameRoot(fileName: string, custom: map<string, string>, stamp: string)
    requires fileName !in custom
    requires var stem := SplitextRoot(fileName) + "_" + stamp; Sep !in stem && '.' !in stem
    ensures SplitextRoot(OutputName(fileName, custom, stamp)) == SplitextRoot(fileName) + "_" + stamp
  {
    SplitextRootOfJsonName(SplitextRoot(fileName) + "_" + stamp);
  }

  function Rebuilds(variant: Variant): bool {
    variant.DataGeneratorRun? || variant.rebuilds
  }

  /** The per-file run: the DataGenerator's writes nothing itself, the base
      generator's is its merged-mode run aimed at the file's output path. */
  function FileRun<T(==)>(variant: Variant, t: FileTask<T>, concurrency: int, outputPath: string): (r: Generated<T>)
    requires ValidTask(t)
    ensures r.data == Successes(t.outcomes)
    ensures variant.DataGeneratorRun? ==> r.saves == []
    ensures forall k :: 0 <= k < |r.saves| ==> r.saves[k].path == outputPath
  {
    if variant.DataGeneratorRun? then Generated(ConcurrentResult(t.outcomes, t.order), [])
    else Merged(t.outcomes, t.order, outputPath, concurrency)
  }

  /** What one input file adds: the saves made for it and its entry, if any. */
  datatype FileOutcome<T> = FileOutcome(saves: seq<Save<T>>, result: Option<FileResult<T>>)

  /** The body of the per-file loop. A file that cannot be loaded, or whose
      generator cannot be rebuilt, is skipped; a file that produced nothing
      gets no entry. */
  function ProcessFile<T(==)>(variant: Variant, t: FileTask<T>, concurrency: int, outputDir: string,
                              custom: map<string, string>): (r: FileOutcome<T>)
    requires ValidTask(t)
    ensures r.result.Some? <==> t.loads && Rebuilds(variant) && |Successes(t.outcomes)| > 0
    ensures r.result.Some? ==>
              var fr := r.result.value;
              && fr.fileName == Basename(t.path)
              && fr.outputPath == Join(outputDir, OutputName(Basename(t.path), custom, t.stamp))
              && fr.data == Successes(t.outcomes)
              && fr.dataCount == |fr.data| > 0
              && |r.saves| > 0 && r.saves[|r.saves| - 1] == Save(fr.outputPath, fr.data)
    ensures !t.loads || !Rebuilds(variant) ==> r == FileOutcome([], None)
  {
    if !t.loads || !Rebuilds(variant) then FileOutcome([], None)
    else
      var fileName := Basename(t.path);
      var outputPath := Join(outputDir, OutputName(fileName, custom, t.stamp));
      Finish(FileRun(variant, t, concurrency, outputPath), fileName, outputPath)
  }

  /** The end of the per-file body: a run that produced data is saved once
      more to the output path and gets an entry. */
  function Finish<T>(run: Generated<T>, fileName: string, outputPath: string): (r: FileOutcome<T>)
    ensures r.result.Some? <==> |run.data| > 0
    ensures r.result.Some? ==>
              && r.result.value == FileResult(fileName, outputPath, |run.data|, run.data)
              && |r.saves| > 0 && r.saves[|r.saves| - 1] == Save(outputPath, run.data)
    ensures (forall k :: 0 <= k < |run.saves| ==> run.saves[k].path == outputPath) ==>
              forall k :: 0 <= k < |r.saves| ==> r.saves[k].path == outputPath
  {
    if |run.data| == 0 then FileOutcome(run.saves, None)
    else FileOutcome(run.saves + [Save(outputPath, run.data)], Some(FileResult(fileName, outputPath, |run.data|, run.data)))
  }

  /** Everything written for an input file goes to that file's output path. */
  lemma ProcessFileWritesOnePath<T>(variant: Variant, t: FileTask<T>, concurrency: int, outputDir: string,
                                    custom: map<string, string>)
    requires ValidTask(t)
    ensures var r := ProcessFile(variant, t, concurrency, outputDir, custom);
            forall k :: 0 <= k < |r.saves| ==>
              r.saves[k].path == Join(outputDir, OutputName(Basename(t.path), custom, t.stamp))
  {
    if t.loads && Rebuilds(variant) {
      var outputPath := Join(outputDir, OutputName(Basename(t.path), custom, t.stamp));
      assert ProcessFile(variant, t, concurrency, outputDir, custom)
             == Finish(FileRun(variant, t, concurrency, outputPath), Basename(t.path), outputPath);
    }
  }

  function DataOf<T>(fr: FileResult<T>): seq<T> {
    fr.data
  }

  /** `generate_dataset_for_folder_separate` over the files in the loader's
      order. */
  function Folder<T(==)>(variant: Variant, tasks: seq<FileTask<T>>, concurrency: int, output: string,
                         custom: map<string, string>): (r: FolderRun<T>)
    requires forall i :: 0 <= i < |tasks| ==> ValidTask(tasks[i])
    ensures r.allData == ConcatMap(DataOf, r.fileResults)
    ensures |r.fileResults| <= |tasks|
    ensures forall k :: 0 <= k < |r.fileResults| ==> r.fileResults[k].dataCount == |r.fileResults[k].data| > 0
    decreases |tasks|
  {
    if |tasks| == 0 then FolderRun([], [], [])
    else
      var prev := Folder(variant, tasks[..|tasks| - 1], concurrency, output, custom);
      var t := tasks[|tasks| - 1];
      var step := ProcessFile(variant, t, concurrency, Dirname(output), custom);
      match step.result
      case None => FolderRun(prev.allData, prev.fileResults, prev.saves + step.saves)
      case Some(fr) =>
        var results := prev.fileResults + [fr];
        assert results[..|results| - 1] == prev.fileResults;
        FolderRun(prev.allData + fr.data, results, prev.saves + step.saves)
  }

  /** The entry each input file yields, in the loader's order. */
  function FileEntries<T(==)>(variant: Variant, tasks: seq<FileTask<T>>, concurrency: int, outputDir: string,
                              custom: map<string, string>): (r: seq<Option<FileResult<T>>>)
    requires forall i :: 0 <= i < |tasks| ==> ValidTask(tasks[i])
    ensures |r| == |tasks|
    decreases |tasks|
  {
    if |tasks| == 0 then []
    else
      FileEntries(variant, tasks[..|tasks| - 1], concurrency, outputDir, custom)
      + [ProcessFile(variant, tasks[|tasks| - 1], concurrency, outputDir, custom).result]
  }

  /** The file entries are exactly the entries of the files processed, in
      the order of the input files. */
  lemma {:induction false} FolderResults<T>(variant: Variant, tasks: seq<FileTask<T>>, concurrency: int, output: string,
                                            custom: map<string, string>)
    requires forall i :: 0 <= i < |tasks| ==> ValidTask(tasks[i])
    ensures Folder(variant, tasks, concurrency, output, custom).fileResults
            == Successes(FileEntries(variant, tasks, concurrency, Dirname(output), custom))
    decreases |tasks|
  {
    if |tasks| > 0 {
      var init := tasks[..|tasks| - 1];
      var entries := FileEntries(variant, tasks, concurrency, Dirname(output), custom);
      FolderResults(variant, init, concurrency, output, custom);
      assert entries[..|entries| - 1] == FileEntries(variant, init, concurrency, Dirname(output), custom);
    }
  }

  /** A base generator whose constructor rejects the rebuild arguments
      skips every file: the folder run returns and writes nothing. */
  lemma {:induction false} RebuildFailureSkipsAll<T>(tasks: seq<FileTask<T>>, concurrency: int, output: string,
                                                     custom: map<string, string>)
    requires forall i :: 0 <= i < |tasks| ==> ValidTask(tasks[i])
    ensures Folder(BaseGeneratorRun(false), tasks, concurrency, output, custom) == FolderRun([], [], [])
    decreases |tasks|
  {
    if |tasks| > 0 {
      RebuildFailureSkipsAll(tasks[..|tasks| - 1], concurrency, output, custom);
    }
  }

  // ---------------------------------------------------------------------
  // Dispatch

  const SeparateMode := "separate"

  datatype DatasetRun<T> = MergedRun(run: Generated<T>) | SeparateRun(folder: FolderRun<T>)

  /** `generate_dataset`: folder mode only for `"separate"` with more than
      one loaded file; otherwise the merged run over the loaded records. */
  function GenerateDataset<T(==)>(variant: Variant, filePaths: seq<string>, folderMode: string, concurrency: int,
                                  outcomes: seq<Option<T>>, order: seq<nat>, tasks: seq<FileTask<T>>,
                                  output: string, custom: map<string, string>): (r: DatasetRun<T>)
    requires CoversTasks(order, |outcomes|)
    requires |tasks| == |filePaths|
    requires forall i :: 0 <= i < |tasks| ==> ValidTask(tasks[i]) && tasks[i].path == filePaths[i]
    ensures r.SeparateRun? <==> folderMode == SeparateMode && |filePaths| > 1
    ensures r.SeparateRun? ==> r.folder == Folder(variant, tasks, concurrency, output, custom)
    ensures r.MergedRun? ==> r.run.data == Successes(outcomes)
    ensures r.MergedRun? && concurrency > 1 ==> r.run == Concurrent(outcomes, order, output)
  {
    if folderMode == SeparateMode && |filePaths| > 1 then SeparateRun(Folder(variant, tasks, concurrency, output, custom))
    else MergedRun(Merged(outcomes, order, output, concurrency))
  }
}
