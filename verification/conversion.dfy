/**
 * `SFTToDPOConverter` (src/dataset_generators/sft_to_dpo_converter.py):
 * converting a whole SFT file, sequentially or concurrently, and a folder
 * of SFT files, into DPO records.
 *
 * The model's behaviour for the i-th item of a file is `asks(i)`; reading a
 * file is `FileContent`; the folder listing is a parameter in the order
 * `os.listdir` returns it. Writes are recorded as `Save`s and succeed.
 */
module Conversion {

  import opened Wrappers
  import opened Text
  import opened Paths
  import opened Records
  import opened Loader
  import opened Extraction
  import opened Execution
  import opened Pipelines
  import opened Orchestration

  /** The model's behaviour during the conversion of each item. */
  type Asks = nat -> Ask

  /** The outcome of converting each item. */
  function ItemOutcomes(items: seq<Record>, asks: Asks, parse: JsonParser): (r: seq<Option<DpoRecord>>)
    ensures |r| == |items|
    ensures forall i :: 0 <= i < |r| ==> r[i] == Outcome(ConvertSample(asks(i), parse, items[i]))
  {
    seq(|items|, i requires 0 <= i < |items| => Outcome(ConvertSample(asks(i), parse, items[i])))
  }

  /** Where the sequential conversion keeps its intermediate results. */
  function TempPath(output: string): (r: string)
    ensures EndsWith(r, "_temp" + JsonExt)
    ensures StartsWith(r, SplitextRoot(output))
    ensures |r| == |SplitextRoot(output)| + |"_temp" + JsonExt|
  {
    var root := SplitextRoot(output);
    var r := root + "_temp" + JsonExt;
    assert r[..|root|] == root;
    assert r[|r| - |"_temp" + JsonExt|..] == "_temp" + JsonExt;
    r
  }

  /** `_convert_sequential`: the successes in source order; a temporary
      file after every tenth item when that item succeeded and an output
      path was given. */
  function ConvertSequential(outcomes: seq<Option<DpoRecord>>, output: string): (r: Generated<DpoRecord>)
    ensures r.data == Successes(outcomes)
    ensures output == "" ==> r.saves == []
    ensures forall k :: 0 <= k < |r.saves| ==> r.saves[k].path == TempPath(output) && IsPrefix(r.saves[k].data, r.data)
  {
    PeriodicSavesArePrefixes(outcomes, SaveEvery);
    var data := Successes(outcomes);
    if output == "" then Generated(data, [])
    else Generated(data, SavesTo(TempPath(output), PeriodicSaves(outcomes, SaveEvery)))
  }

  /** `convert_sft_dataset_to_dpo(path, output, concurrency)`. The
      concurrent conversion takes no snapshots, so its list is the successes
      in source order whatever the completion order (`ConcurrentAnyOrder`). */
  function ConvertFile(content: FileContent, asks: Asks, parse: JsonParser, output: string, concurrency: int)
    : (r: Result<Generated<DpoRecord>>)
    ensures content.Unreadable? ==> r == Err(GenericException(UnreadableFile))
    ensures content.JsonValue? ==> r == Err(ValueError(NotAJsonArray))
    ensures content.JsonArray? ==> r.Ok?
    ensures r.Ok? ==>
              && r.value.data == Successes(ItemOutcomes(content.items, asks, parse))
              && |r.value.data| <= |content.items|
              && |r.value.saves| > 0 && r.value.saves[|r.value.saves| - 1] == Save(output, r.value.data)
    ensures r.Ok? && concurrency > 1 ==> r.value.saves == [Save(output, r.value.data)]
  {
    match content
    case Unreadable => Err(GenericException(UnreadableFile))
    case JsonValue(_) => Err(ValueError(NotAJsonArray))
    case JsonArray(items) =>
      var outcomes := ItemOutcomes(items, asks, parse);
      var run := if concurrency > 1 then Generated(Successes(outcomes), []) else ConvertSequential(outcomes, output);
      Ok(Generated(run.data, run.saves + [Save(output, run.data)]))
  }

  /** The concurrent conversion's list for any completion order. */
  lemma ConcurrentAnyOrder(items: seq<Record>, asks: Asks, parse: JsonParser, output: string, concurrency: int,
                           order: seq<nat>)
    requires concurrency > 1 && CoversTasks(order, |items|)
    ensures ConvertFile(JsonArray(items), asks, parse, output, concurrency).value.data
            == ConcurrentResult(ItemOutcomes(items, asks, parse), order)
  {
  }

  /** Every converted record carries the instruction, input and output of an
      item of the file, with non-empty instruction and chosen. */
  lemma ConvertedFromItems(items: seq<Record>, asks: Asks, parse: JsonParser, output: string, concurrency: int, k: nat)
    requires k < |ConvertFile(JsonArray(items), asks, parse, output, concurrency).value.data|
    ensures var d := ConvertFile(JsonArray(items), asks, parse, output, concurrency).value.data[k];
            && d.instruction != "" && d.chosen != ""
            && exists i :: 0 <= i < |items| && d.instruction == Get(items[i], InstructionKey)
                 && d.input == Get(items[i], InputKey) && d.chosen == Get(items[i], OutputKey)
  {
    var outcomes := ItemOutcomes(items, asks, parse);
    var data := Successes(outcomes);
    var d := data[k];
    InSuccesses(outcomes, d);
    var i :| 0 <= i < |outcomes| && outcomes[i] == Some(d);
    assert ConvertSample(asks(i), parse, items[i]).result == Ok(d);
  }

  /** When every item has an instruction and an output and every model call
      answers, each item is converted, in order, with its output as
      `chosen`. */
  lemma AllItemsConverted(items: seq<Record>, asks: Asks, parse: JsonParser, output: string, concurrency: int)
    requires forall i :: 0 <= i < |items| ==>
               Get(items[i], InstructionKey) != "" && Get(items[i], OutputKey) != ""
               && asks(i)(RejectedRequest(Get(items[i], InstructionKey), Get(items[i], InputKey), Get(items[i], OutputKey))).Ok?
    ensures var data := ConvertFile(JsonArray(items), asks, parse, output, concurrency).value.data;
            && |data| == |items|
            && forall i :: 0 <= i < |items| ==> data[i].chosen == Get(items[i], OutputKey)
  {
    var outcomes := ItemOutcomes(items, asks, parse);
    forall i | 0 <= i < |outcomes| ensures outcomes[i].Some? {
      ConvertValidation(asks(i), parse, items[i]);
    }
    AllSucceed(outcomes);
  }

  // ---------------------------------------------------------------------
  // Folder conversion

  /** The `.json` entries of a listing, joined to the folder. */
  function JsonFilesIn(folder: string, listing: seq<string>): (r: seq<string>)
    ensures |r| <= |listing|
    ensures forall k :: 0 <= k < |r| ==> EndsWith(r[k], JsonExt)
  {
    if |listing| == 0 then []
    else
      var earlier := JsonFilesIn(folder, listing[..|listing| - 1]);
      var name := listing[|listing| - 1];
      if EndsWith(name, JsonExt) then
        SuffixTransitive(JsonExt, name, Join(folder, name));
        earlier + [Join(folder, name)]
      else earlier
  }

  /** What each listing entry contributes: its path in the folder when its
      name ends in `.json`, nothing otherwise. */
  function JsonEntries(folder: string, listing: seq<string>): (r: seq<Option<string>>)
    ensures |r| == |listing|
    ensures forall i :: 0 <= i < |r| ==> (r[i].Some? <==> EndsWith(listing[i], JsonExt))
    ensures forall i :: 0 <= i < |r| && r[i].Some? ==> r[i].value == Join(folder, listing[i])
  {
    seq(|listing|, i requires 0 <= i < |listing| =>
                     if EndsWith(listing[i], JsonExt) then Some(Join(folder, listing[i])) else None)
  }

  /** The files considered are exactly the listing's `.json` names, joined
      to the folder, in listing order. */
  lemma {:induction false} JsonFilesInExactly(folder: string, listing: seq<string>)
    ensures JsonFilesIn(folder, listing) == Successes(JsonEntries(folder, listing))
    decreases |listing|
  {
    if |listing| > 0 {
      var init := listing[..|listing| - 1];
      JsonFilesInExactly(folder, init);
      var s := JsonEntries(folder, listing);
      assert s[..|s| - 1] == JsonEntries(folder, init);
    }
  }

  /** Every `.json` name of the listing is considered. */
  lemma JsonFileConsidered(folder: string, listing: seq<string>, i: nat)
    requires i < |listing| && EndsWith(listing[i], JsonExt)
    ensures Join(folder, listing[i]) in JsonFilesIn(folder, listing)
  {
    var s := JsonEntries(folder, listing);
    JsonFilesInExactly(folder, listing);
    assert s[i] == Some(Join(folder, listing[i]));
    InSuccesses(s, Join(folder, listing[i]));
  }

  /** Every file considered is a `.json` name of the listing, joined to the
      folder. */
  lemma JsonFileFromListing(folder: string, listing: seq<string>, path: string)
    requires path in JsonFilesIn(folder, listing)
    ensures exists i :: 0 <= i < |listing| && EndsWith(listing[i], JsonExt) && path == Join(folder, listing[i])
  {
    var s := JsonEntries(folder, listing);
    JsonFilesInExactly(folder, listing);
    InSuccesses(s, path);
    var i :| 0 <= i < |s| && s[i] == Some(path);
  }

  /** A file's output: `dpo_` before its name, in the output folder. */
  function DpoOutputPath(outputFolder: string, file: string): (r: string)
    ensures Basename(r) == "dpo_" + Basename(file)
    ensures PlainDir(outputFolder) ==> Dirname(r) == outputFolder
  {
    var name := "dpo_" + Basename(file);
    assert Sep !in name by {
      assert forall k :: 4 <= k < |name| ==> name[k] == Basename(file)[k - 4];
    }
    BasenameOfJoin(outputFolder, name);
    if PlainDir(outputFolder) then
      DirnameOfJoin(outputFolder, name);
      Join(outputFolder, name)
    else Join(outputFolder, name)
  }

  /** The per-file input: what the file reads as and how the model answers
      for its items. */
  datatype FileJob = FileJob(content: FileContent, asks: Asks)

  /** One entry of `results`. */
  datatype ConversionEntry = ConversionEntry(inputFile: string, outputFile: string, convertedCount: nat)

  /** The sum of the entries' counts. */
  function TotalConverted(entries: seq<ConversionEntry>): nat {
    if |entries| == 0 then 0
    else TotalConverted(entries[..|entries| - 1]) + entries[|entries| - 1].convertedCount
  }

  /** `e` records a file that converted: its output path, and the number
      of records its conversion produced. */
  predicate EntryOf(e: ConversionEntry, outputFolder: string, job: string -> FileJob, parse: JsonParser, concurrency: int) {
    && e.outputFile == DpoOutputPath(outputFolder, e.inputFile)
    && var c := ConvertFile(job(e.inputFile).content, job(e.inputFile).asks, parse, e.outputFile, concurrency);
       c.Ok? && e.convertedCount == |c.value.data|
  }

  datatype Batch = Batch(entries: seq<ConversionEntry>, saves: seq<Save<DpoRecord>>)

  /** The per-file loop: a file whose conversion raises is skipped. */
  function ConvertFiles(files: seq<string>, outputFolder: string, job: string -> FileJob, parse: JsonParser,
                        concurrency: int): (r: Batch)
    ensures |r.entries| <= |files|
    ensures forall k :: 0 <= k < |r.entries| ==>
              r.entries[k].inputFile in files && EntryOf(r.entries[k], outputFolder, job, parse, concurrency)
    decreases |files|
  {
    if |files| == 0 then Batch([], [])
    else
      var prev := ConvertFiles(files[..|files| - 1], outputFolder, job, parse, concurrency);
      var f := files[|files| - 1];
      var output := DpoOutputPath(outputFolder, f);
      match ConvertFile(job(f).content, job(f).asks, parse, output, concurrency)
      case Err(_) => Batch(prev.entries, prev.saves)
      case Ok(run) =>
        var e := ConversionEntry(f, output, |run.data|);
        assert EntryOf(e, outputFolder, job, parse, concurrency);
        Batch(prev.entries + [e], prev.saves + run.saves)
  }

  /** The entry a file gets: its output path and record count when its
      conversion returns, nothing when it raises. */
  function EntryFor(f: string, outputFolder: string, job: string -> FileJob, parse: JsonParser,
                    concurrency: int): (r: Option<ConversionEntry>)
    ensures r.Some? <==> job(f).content.JsonArray?
    ensures r.Some? ==> r.value.inputFile == f && EntryOf(r.value, outputFolder, job, parse, concurrency)
  {
    var output := DpoOutputPath(outputFolder, f);
    match ConvertFile(job(f).content, job(f).asks, parse, output, concurrency)
    case Err(_) => None
    case Ok(run) => Some(ConversionEntry(f, output, |run.data|))
  }

  /** The entry each file gets, in the order of the files. */
  function ConversionEntries(files: seq<string>, outputFolder: string, job: string -> FileJob, parse: JsonParser,
                             concurrency: int): (r: seq<Option<ConversionEntry>>)
    ensures |r| == |files|
    ensures forall i :: 0 <= i < |r| ==> r[i] == EntryFor(files[i], outputFolder, job, parse, concurrency)
  {
    seq(|files|, i requires 0 <= i < |files| => EntryFor(files[i], outputFolder, job, parse, concurrency))
  }

  /** The entries are exactly those of the files that converted, in the
      order of the files: none is dropped and none is invented. */
  lemma {:induction false} ConvertFilesExactly(files: seq<string>, outputFolder: string, job: string -> FileJob,
                                               parse: JsonParser, concurrency: int)
    ensures ConvertFiles(files, outputFolder, job, parse, concurrency).entries
            == Successes(ConversionEntries(files, outputFolder, job, parse, concurrency))
    decreases |files|
  {
    if |files| > 0 {
      var init := files[..|files| - 1];
      ConvertFilesExactly(init, outputFolder, job, parse, concurrency);
      var s := ConversionEntries(files, outputFolder, job, parse, concurrency);
      assert s[..|s| - 1] == ConversionEntries(init, outputFolder, job, parse, concurrency);
      ConvertFilesStep(files, outputFolder, job, parse, concurrency);
    }
  }

  /** One more file adds its entry, if it has one, at the end. */
  lemma ConvertFilesStep(files: seq<string>, outputFolder: string, job: string -> FileJob, parse: JsonParser,
                         concurrency: int)
    requires |files| > 0
    ensures var e := EntryFor(files[|files| - 1], outputFolder, job, parse, concurrency);
            ConvertFiles(files, outputFolder, job, parse, concurrency).entries
            == ConvertFiles(files[..|files| - 1], outputFolder, job, parse, concurrency).entries
               + (if e.Some? then [e.value] else [])
  {
  }

  /** The statistics `convert_folder_sft_to_dpo` returns. */
  datatype FolderStats = FolderStats(totalFiles: nat, convertedFiles: nat, totalConvertedSamples: nat,
                                     results: seq<ConversionEntry>)

  /** `convert_folder_sft_to_dpo(folder, output_folder, concurrency)`. */
  function ConvertFolder(folder: string, listing: seq<string>, outputFolder: string, job: string -> FileJob,
                         parse: JsonParser, concurrency: int): (r: Result<(FolderStats, seq<Save<DpoRecord>>)>)
    ensures |JsonFilesIn(folder, listing)| == 0 <==> r == Err(ValueError(NoJsonFilesInFolder))
    ensures r.Ok? ==>
              var stats := r.value.0;
              && stats.totalFiles == |JsonFilesIn(folder, listing)|
              && stats.convertedFiles == |stats.results| <= stats.totalFiles
              && stats.totalConvertedSamples == TotalConverted(stats.results)
              && forall k :: 0 <= k < |stats.results| ==> EndsWith(stats.results[k].inputFile, JsonExt)
  {
    var files := JsonFilesIn(folder, listing);
    if |files| == 0 then Err(ValueError(NoJsonFilesInFolder))
    else
      var batch := ConvertFiles(files, outputFolder, job, parse, concurrency);
      var stats := FolderStats(|files|, |batch.entries|, TotalConverted(batch.entries), batch.entries);
      Ok((stats, batch.saves))
  }

  /** The statistics' results are exactly the entries of the `.json` files
      that converted, in listing order. */
  lemma ConvertFolderExactly(folder: string, listing: seq<string>, outputFolder: string, job: string -> FileJob,
                             parse: JsonParser, concurrency: int)
    requires |JsonFilesIn(folder, listing)| > 0
    ensures var r := ConvertFolder(folder, listing, outputFolder, job, parse, concurrency);
            r.Ok? && r.value.0.results
                     == Successes(ConversionEntries(JsonFilesIn(folder, listing), outputFolder, job, parse, concurrency))
  {
    ConvertFilesExactly(JsonFilesIn(folder, listing), outputFolder, job, parse, concurrency);
  }

  /** A `.json` file of the listing that holds a JSON list is converted and
      recorded; a failing file is only skipped. */
  lemma ListFileRecorded(folder: string, listing: seq<string>, outputFolder: string, job: string -> FileJob,
                         parse: JsonParser, concurrency: int, i: nat)
    requires i < |listing| && EndsWith(listing[i], JsonExt)
    requires job(Join(folder, listing[i])).content.JsonArray?
    ensures var r := ConvertFolder(folder, listing, outputFolder, job, parse, concurrency);
            r.Ok? && exists k :: 0 <= k < |r.value.0.results| && r.value.0.results[k].inputFile == Join(folder, listing[i])
  {
    var path := Join(folder, listing[i]);
    var files := JsonFilesIn(folder, listing);
    JsonFileConsidered(folder, listing, i);
    var j :| 0 <= j < |files| && files[j] == path;
    ConvertFolderExactly(folder, listing, outputFolder, job, parse, concurrency);
    var s := ConversionEntries(files, outputFolder, job, parse, concurrency);
    var e := EntryFor(path, outputFolder, job, parse, concurrency).value;
    assert s[j] == Some(e);
    InSuccesses(s, e);
    var results := ConvertFolder(folder, listing, outputFolder, job, parse, concurrency).value.0.results;
    var k :| 0 <= k < |results| && results[k] == e;
  }
}
