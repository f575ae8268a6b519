/**
 * `OptimizedSFTToDPOConverter`
 * (src/dataset_generators/optimized_sft_to_dpo_converter.py): the SFT to
 * DPO conversion with checkpoints, resumed from the last checkpoint of an
 * interrupted run.
 *
 * The checkpoint file is read as a `Stored` value (or `None` when it is
 * absent or unreadable); every checkpoint written is recorded, in order, as
 * a `Checkpoint`. Two behaviours are modelled as written: a checkpoint holds
 * only the records converted by the current run, not the ones it resumed
 * with, and the concurrent checkpoint's completed count is the resume
 * position plus the number of successes so far.
 */
module Resumable {

  import opened Wrappers
  import opened Text
  import opened Paths
  import opened Records
  import opened Loader
  import opened Extraction
  import opened Slices
  import opened Execution
  import opened Pipelines
  import opened Conversion

  /** What a checkpoint file reads back as: a JSON object, with the two keys
      the resume logic looks up and whether it has any other key, or some
      other JSON value together with its truth value. */
  datatype Stored =
    | StoredObject(completed: Option<int>, converted: Option<seq<DpoRecord>>, otherKeys: bool)
    | StoredOther(truthy: bool)

  /** Python truthiness of the loaded checkpoint. */
  predicate Truthy(s: Stored) {
    match s
    case StoredObject(completed, converted, otherKeys) => completed.Some? || converted.Some? || otherKeys
    case StoredOther(truthy) => truthy
  }

  /** One checkpoint write: `completed_count` and `converted_data`. */
  datatype Checkpoint = Checkpoint(completed: int, converted: seq<DpoRecord>)

  /** How a written checkpoint reads back (it also carries a timestamp). */
  function Written(c: Checkpoint): (s: Stored)
    ensures Truthy(s)
  {
    StoredObject(Some(c.completed), Some(c.converted), true)
  }

  const CheckpointSuffix: string := "_checkpoint" + JsonExt

  lemma CheckpointSuffixSepFree()
    ensures Sep !in CheckpointSuffix
  {
    assert CheckpointSuffix == "_checkpoint.json";
  }

  /** `_get_checkpoint_path`: the output's name without its extension, with
      `_checkpoint.json`, in the checkpoint directory. */
  function CheckpointPath(dir: string, output: string): (r: string)
    ensures Basename(r) == SplitextRoot(Basename(output)) + CheckpointSuffix
    ensures EndsWith(r, CheckpointSuffix)
    ensures PlainDir(dir) ==> Dirname(r) == dir
  {
    var base := Basename(output);
    var root := SplitextRoot(base);
    var name := root + CheckpointSuffix;
    RootOfBasenameSepFree(output);
    CheckpointSuffixSepFree();
    BasenameOfJoin(dir, name);
    SuffixTransitive(CheckpointSuffix, name, Join(dir, name));
    if PlainDir(dir) then
      DirnameOfJoin(dir, name);
      Join(dir, name)
    else Join(dir, name)
  }

  /** Where a conversion starts: the position of the first item to convert
      and the records converted before it. */
  datatype Start = Start(position: int, prior: seq<DpoRecord>)

  /** Where a conversion starts and the records it starts with: the stored
      `completed_count` and `converted_data` when resuming from a truthy
      checkpoint (each defaulting when absent), otherwise the beginning.
      Looking a key up in a checkpoint that is not an object raises. */
  function ResumePoint(resume: bool, stored: Option<Stored>): (r: Result<Start>)
    ensures !resume || stored.None? || !Truthy(stored.value) ==> r == Ok(Start(0, []))
    ensures resume && stored.Some? && Truthy(stored.value) && stored.value.StoredOther? ==> r == Err(AttributeError)
    ensures resume && stored.Some? && Truthy(stored.value) && stored.value.StoredObject? ==>
              r == Ok(Start(stored.value.completed.GetOr(0), stored.value.converted.GetOr([])))
  {
    if resume && stored.Some? && Truthy(stored.value) then
      match stored.value
      case StoredObject(completed, converted, _) => Ok(Start(completed.GetOr(0), converted.GetOr([])))
      case StoredOther(_) => Err(AttributeError)
    else Ok(Start(0, []))
  }

  /** A checkpoint read back gives the position and records it was written
      with. */
  lemma ResumeFromWritten(c: Checkpoint)
    ensures ResumePoint(true, Some(Written(c))) == Ok(Start(c.completed, c.converted))
  {
  }

  /** `_convert_sequential_optimized` checkpoints: after the i-th remaining
      item (counting from one) when it converted and i is a multiple of the
      interval, recording `start + i` and this run's records so far. A zero
      interval raises inside the per-item handler after the record is kept,
      so it only suppresses the checkpoints. */
  function SequentialCheckpoints(outcomes: seq<Option<DpoRecord>>, start: int, interval: int): (r: seq<Checkpoint>)
    ensures |r| <= |outcomes|
    ensures interval == 0 ==> r == []
    ensures forall k :: 0 <= k < |r| ==>
              && start < r[k].completed <= start + |outcomes|
              && r[k].converted == Successes(outcomes[..r[k].completed - start])
  {
    if |outcomes| == 0 then []
    else
      var n := |outcomes|;
      var earlier := SequentialCheckpoints(outcomes[..n - 1], start, interval);
      assert forall m :: 0 <= m <= n - 1 ==> outcomes[..n - 1][..m] == outcomes[..m];
      assert outcomes[..n] == outcomes;
      if outcomes[n - 1].Some? && interval != 0 && n % interval == 0 then
        earlier + [Checkpoint(start + n, Successes(outcomes))]
      else earlier
  }

  /** The sequential checkpoints hold prefixes of this run's records only. */
  lemma SequentialCheckpointsArePrefixes(outcomes: seq<Option<DpoRecord>>, start: int, interval: int)
    ensures forall k :: 0 <= k < |SequentialCheckpoints(outcomes, start, interval)| ==>
              IsPrefix(SequentialCheckpoints(outcomes, start, interval)[k].converted, Successes(outcomes))
  {
    var r := SequentialCheckpoints(outcomes, start, interval);
    forall k | 0 <= k < |r| ensures IsPrefix(r[k].converted, Successes(outcomes)) {
      SequentialPrefix(outcomes, r[k].completed - start);
    }
  }

  /** `_convert_concurrent_optimized` checkpoints: after every completion
      whose count is a multiple of the interval, the successes settled so
      far, with `start` plus their number as the completed count. */
  function ConcurrentCheckpoints(views: seq<seq<DpoRecord>>, start: int, interval: int): (r: seq<Checkpoint>)
    requires interval != 0
    ensures |r| <= |views|
    ensures forall k :: 0 <= k < |r| ==> r[k].completed == start + |r[k].converted| && r[k].converted in views
  {
    if |views| == 0 then []
    else
      var c := |views|;
      var earlier := ConcurrentCheckpoints(views[..c - 1], start, interval);
      assert forall v :: v in views[..c - 1] ==> v in views;
      if c % interval == 0 then earlier + [Checkpoint(start + |views[c - 1]|, views[c - 1])]
      else earlier
  }

  /** The concurrent checkpoints hold subsequences of this run's records. */
  lemma ConcurrentCheckpointsAreSubsequences(outcomes: seq<Option<DpoRecord>>, order: seq<nat>, start: int,
                                             interval: int)
    requires CoversTasks(order, |outcomes|) && interval != 0
    ensures forall k :: 0 <= k < |ConcurrentCheckpoints(Views(outcomes, order), start, interval)| ==>
              IsSubsequence(ConcurrentCheckpoints(Views(outcomes, order), start, interval)[k].converted,
                            Successes(outcomes))
  {
    var views := Views(outcomes, order);
    ViewsAreSubsequences(outcomes, order);
    var r := ConcurrentCheckpoints(views, start, interval);
    forall k | 0 <= k < |r| ensures IsSubsequence(r[k].converted, Successes(outcomes)) {
      var c :| 0 <= c < |views| && views[c] == r[k].converted;
    }
  }

  /** What one conversion call did: the checkpoints written, what it returns
      or raises, the final output written, and whether it deleted the
      checkpoint file. */
  datatype ResumeRun = ResumeRun(checkpoints: seq<Checkpoint>, result: Result<seq<DpoRecord>>,
                                 output: Option<seq<DpoRecord>>, deletesCheckpoint: bool)

  /** The items this run converts. */
  function Remaining(items: seq<Record>, start: int): (r: seq<Record>)
    ensures |r| <= |items| && r == items[|items| - |r|..]
    ensures 0 <= start < |items| ==> |r| == |items| - start
  {
    SliceFrom(items, start)
  }

  /** The completion order of a concurrent run fits the items it has left. */
  predicate OrderFits(content: FileContent, resume: bool, stored: Option<Stored>, concurrency: int, order: seq<nat>) {
    concurrency > 1 && content.JsonArray? && ResumePoint(resume, stored).Ok? && ResumePoint(resume, stored).value.position < |content.items| ==>
      CoversTasks(order, |Remaining(content.items, ResumePoint(resume, stored).value.position)|)
  }

  /** The conversion of the remaining items, from `start` with the
      resumed records `prior`. */
  function Proceed(outcomes: seq<Option<DpoRecord>>, start: int, prior: seq<DpoRecord>, concurrency: int,
                   interval: int, order: seq<nat>): (r: ResumeRun)
    requires concurrency > 1 ==> CoversTasks(order, |outcomes|)
    ensures r.deletesCheckpoint <==> r.output.Some?
    ensures r.output.Some? ==> r.result == Ok(r.output.value)
    ensures concurrency <= 1 || interval != 0 || |outcomes| == 0 ==>
              && r.result == Ok(prior + Successes(outcomes)) && r.output == Some(prior + Successes(outcomes))
              && r.deletesCheckpoint
    ensures concurrency <= 1 ==> r.checkpoints == SequentialCheckpoints(outcomes, start, interval)
    ensures concurrency > 1 && interval != 0 ==> r.checkpoints == ConcurrentCheckpoints(Views(outcomes, order), start, interval)
    ensures concurrency > 1 && interval == 0 && |outcomes| == 0 ==> r.checkpoints == []
    ensures concurrency > 1 && interval == 0 && |outcomes| > 0 ==>
              && r.result == Err(ZeroDivision) && r.output.None? && !r.deletesCheckpoint
              && r.checkpoints == if |prior| > 0 then [Checkpoint(|prior|, prior)] else []
  {
    if concurrency > 1 && interval == 0 && |outcomes| > 0 then
      // the first completion divides by zero; the progress is kept only
      // when the run resumed with records
      var saved := if |prior| > 0 then [Checkpoint(|prior|, prior)] else [];
      ResumeRun(saved, Err(ZeroDivision), None, false)
    else if concurrency > 1 && interval == 0 then
      // nothing is submitted, so no completion reaches the division
      assert prior + Successes(outcomes) == prior;
      ResumeRun([], Ok(prior), Some(prior), true)
    else if concurrency > 1 then
      var all := prior + ConcurrentResult(outcomes, order);
      ResumeRun(ConcurrentCheckpoints(Views(outcomes, order), start, interval), Ok(all), Some(all), true)
    else
      var all := prior + Successes(outcomes);
      ResumeRun(SequentialCheckpoints(outcomes, start, interval), Ok(all), Some(all), true)
  }

  /** Converting the items from `start` on, with the resumed records
      `prior`. */
  function ProceedFrom(items: seq<Record>, asks: Asks, parse: JsonParser, start: int, prior: seq<DpoRecord>,
                       concurrency: int, interval: int, order: seq<nat>): (r: ResumeRun)
    requires concurrency > 1 ==> CoversTasks(order, |Remaining(items, start)|)
    ensures r.deletesCheckpoint <==> r.output.Some?
    ensures r.output.Some? ==> r.result == Ok(r.output.value)
  {
    Proceed(ItemOutcomes(Remaining(items, start), asks, parse), start, prior, concurrency, interval, order)
  }

  /** The conversion of a list of items, once the resume point `begin` is
      known: an error raised while reading the checkpoint, the stored
      records when the checkpoint is already at the end, or a conversion of
      the remaining items. */
  function ConvertItems(items: seq<Record>, asks: Asks, parse: JsonParser, concurrency: int, begin: Result<Start>,
                        interval: int, order: seq<nat>): (r: ResumeRun)
    requires concurrency > 1 && begin.Ok? && begin.value.position < |items| ==>
               CoversTasks(order, |Remaining(items, begin.value.position)|)
    ensures r.deletesCheckpoint <==> r.output.Some?
    ensures r.output.Some? ==> r.result == Ok(r.output.value)
    ensures begin.Err? ==> r == ResumeRun([], Err(begin.error), None, false)
    ensures begin.Ok? && begin.value.position >= |items| ==> r == ResumeRun([], Ok(begin.value.prior), None, false)
    ensures begin.Ok? && begin.value.position < |items| ==>
              r == ProceedFrom(items, asks, parse, begin.value.position, begin.value.prior, concurrency, interval, order)
  {
    match begin
    case Err(e) => ResumeRun([], Err(e), None, false)
    case Ok(p) =>
      if p.position >= |items| then ResumeRun([], Ok(p.prior), None, false)
      else ProceedFrom(items, asks, parse, p.position, p.prior, concurrency, interval, order)
  }

  /** `convert_sft_dataset_to_dpo_optimized(path, output, concurrency,
      resume, interval)`. `stored` is the checkpoint file's content and
      `order` the completion order of the remaining items. */
  function ConvertResumable(content: FileContent, asks: Asks, parse: JsonParser, concurrency: int, resume: bool,
                            interval: int, stored: Option<Stored>, order: seq<nat>): (r: ResumeRun)
    requires OrderFits(content, resume, stored, concurrency, order)
    ensures content.Unreadable? ==> r == ResumeRun([], Err(GenericException(UnreadableFile)), None, false)
    ensures content.JsonValue? ==> r == ResumeRun([], Err(ValueError(NotAJsonArray)), None, false)
    ensures content.JsonArray? ==>
              r == ConvertItems(content.items, asks, parse, concurrency, ResumePoint(resume, stored), interval, order)
    ensures r.deletesCheckpoint <==> r.output.Some?
    ensures r.output.Some? ==> r.result == Ok(r.output.value)
  {
    match content
    case Unreadable => ResumeRun([], Err(GenericException(UnreadableFile)), None, false)
    case JsonValue(_) => ResumeRun([], Err(ValueError(NotAJsonArray)), None, false)
    case JsonArray(items) => ConvertItems(items, asks, parse, concurrency, ResumePoint(resume, stored), interval, order)
  }

  /** The result of a run that converts: the resumed records followed by the
      successes among the remaining items, in source order. */
  lemma ConvertsRemaining(items: seq<Record>, asks: Asks, parse: JsonParser, concurrency: int, resume: bool,
                          interval: int, stored: Option<Stored>, order: seq<nat>, start: int, prior: seq<DpoRecord>)
    requires OrderFits(JsonArray(items), resume, stored, concurrency, order)
    requires ResumePoint(resume, stored) == Ok(Start(start, prior))
    requires start < |items| && (concurrency <= 1 || interval != 0)
    ensures var r := ConvertResumable(JsonArray(items), asks, parse, concurrency, resume, interval, stored, order);
            && r.result == Ok(prior + Successes(ItemOutcomes(Remaining(items, start), asks, parse)))
            && r.deletesCheckpoint
  {
  }

  /** A run whose checkpoint says everything is done returns the stored
      records and writes and deletes nothing. */
  lemma AlreadyComplete(items: seq<Record>, asks: Asks, parse: JsonParser, concurrency: int, interval: int,
                        stored: Stored, order: seq<nat>)
    requires stored.StoredObject? && Truthy(stored) && stored.completed.GetOr(0) >= |items|
    ensures ConvertResumable(JsonArray(items), asks, parse, concurrency, true, interval, Some(stored), order)
            == ResumeRun([], Ok(stored.converted.GetOr([])), None, false)
  {
  }

  /** A concurrent run with a zero interval raises at its first completion,
      writing a checkpoint exactly when it resumed with records. When no
      item remains nothing completes, so it writes the resumed records as
      the output instead. */
  lemma ZeroIntervalConcurrent(items: seq<Record>, asks: Asks, parse: JsonParser, concurrency: int, resume: bool,
                               stored: Option<Stored>, order: seq<nat>, start: int, prior: seq<DpoRecord>)
    requires OrderFits(JsonArray(items), resume, stored, concurrency, order)
    requires ResumePoint(resume, stored) == Ok(Start(start, prior))
    requires start < |items| && concurrency > 1
    ensures var r := ConvertResumable(JsonArray(items), asks, parse, concurrency, resume, 0, stored, order);
            && (|Remaining(items, start)| > 0 ==>
                  && r.result == Err(ZeroDivision) && r.output.None?
                  && (|prior| > 0 ==> r.checkpoints == [Checkpoint(|prior|, prior)])
                  && (|prior| == 0 ==> r.checkpoints == []))
            && (|Remaining(items, start)| == 0 ==>
                  r.result == Ok(prior) && r.output == Some(prior) && r.checkpoints == [])
  {
    var outcomes := ItemOutcomes(Remaining(items, start), asks, parse);
    if |Remaining(items, start)| == 0 {
      assert |outcomes| == 0;
      assert prior + Successes(outcomes) == prior;
    } else {
      assert |outcomes| > 0;
    }
  }

  /** An empty list resumed from a negative count has nothing left to
      convert: even with a zero interval the concurrent run writes the
      (empty) result and deletes the checkpoint. */
  lemma ZeroIntervalNothingLeft(asks: Asks, parse: JsonParser)
    ensures var r := ConvertResumable(JsonArray([]), asks, parse, 2, true, 0, Some(StoredObject(Some(-1), None, false)), []);
            r.result == Ok([]) && r.output == Some([]) && r.deletesCheckpoint
  {
    var stored := Some(StoredObject(Some(-1), None, false));
    assert ResumePoint(true, stored) == Ok(Start(-1, []));
    assert |Remaining([], -1)| == 0;
    assert CoversTasks([], 0);
  }

  /** Without a checkpoint to resume from, a run returns the successes
      among all the items, in source order. */
  lemma FreshRunResult(items: seq<Record>, asks: Asks, parse: JsonParser, concurrency: int, interval: int,
                       order: seq<nat>)
    requires (concurrency > 1 ==> CoversTasks(order, |items|)) && (concurrency <= 1 || interval != 0)
    ensures ConvertResumable(JsonArray(items), asks, parse, concurrency, false, interval, None, order).result
            == Ok(Successes(ItemOutcomes(items, asks, parse)))
  {
    assert Remaining(items, 0) == items;
    assert ResumePoint(false, None) == Ok(Start(0, []));
    var outcomes := ItemOutcomes(items, asks, parse);
    if |items| > 0 {
      assert ConvertResumable(JsonArray(items), asks, parse, concurrency, false, interval, None, order)
             == Proceed(outcomes, 0, [], concurrency, interval, order);
      assert [] + Successes(outcomes) == Successes(outcomes);
    }
  }

  /** Without a checkpoint to resume from, the resumable conversion returns
      exactly what the plain conversion does. */
  lemma FreshRunMatchesPlain(items: seq<Record>, asks: Asks, parse: JsonParser, concurrency: int, interval: int,
                             order: seq<nat>, output: string)
    requires (concurrency > 1 ==> CoversTasks(order, |items|)) && (concurrency <= 1 || interval != 0)
    ensures ConvertResumable(JsonArray(items), asks, parse, concurrency, false, interval, None, order).result
            == Ok(ConvertFile(JsonArray(items), asks, parse, output, concurrency).value.data)
  {
    FreshRunResult(items, asks, parse, concurrency, interval, order);
  }

  /** Every checkpoint a resumed run writes holds only records this run
      converted: the records it resumed with are not in it. */
  lemma CheckpointsHoldOnlyThisRun(items: seq<Record>, asks: Asks, parse: JsonParser, concurrency: int, resume: bool,
                                   interval: int, stored: Option<Stored>, order: seq<nat>, start: int,
                                   prior: seq<DpoRecord>)
    requires OrderFits(JsonArray(items), resume, stored, concurrency, order)
    requires ResumePoint(resume, stored) == Ok(Start(start, prior))
    requires start < |items| && (concurrency <= 1 || interval != 0)
    ensures var r := ConvertResumable(JsonArray(items), asks, parse, concurrency, resume, interval, stored, order);
            var own := Successes(ItemOutcomes(Remaining(items, start), asks, parse));
            forall k :: 0 <= k < |r.checkpoints| ==> IsSubsequence(r.checkpoints[k].converted, own)
  {
    var outcomes := ItemOutcomes(Remaining(items, start), asks, parse);
    if concurrency > 1 {
      ConcurrentCheckpointsAreSubsequences(outcomes, order, start, interval);
    } else {
      var cps := SequentialCheckpoints(outcomes, start, interval);
      SequentialCheckpointsArePrefixes(outcomes, start, interval);
      forall k | 0 <= k < |cps| ensures IsSubsequence(cps[k].converted, Successes(outcomes)) {
        PrefixIsSubsequence(cps[k].converted, Successes(outcomes));
      }
    }
  }

  /** The model's behaviour for the items after the first `m`. */
  function Shift(asks: Asks, m: nat): (r: Asks)
    ensures forall i :: r(i) == asks(m + i)
  {
    i => asks(m + i)
  }

  lemma ItemOutcomesShift(items: seq<Record>, asks: Asks, parse: JsonParser, m: nat)
    requires m <= |items|
    ensures ItemOutcomes(items[m..], Shift(asks, m), parse) == ItemOutcomes(items, asks, parse)[m..]
  {
  }

  /** Interrupting a fresh sequential run after any of its checkpoints and
      resuming from that checkpoint, with the model answering the remaining
      items as before, returns the list the uninterrupted run returns. */
  lemma {:induction false} ResumeAfterCheckpoint(items: seq<Record>, asks: Asks, parse: JsonParser, interval: int,
                                                 k: nat)
    requires k < |SequentialCheckpoints(ItemOutcomes(items, asks, parse), 0, interval)|
    ensures var cp := SequentialCheckpoints(ItemOutcomes(items, asks, parse), 0, interval)[k];
            ConvertResumable(JsonArray(items), Shift(asks, cp.completed), parse, 1, true, interval, Some(Written(cp)), [])
              .result
            == ConvertResumable(JsonArray(items), asks, parse, 1, false, interval, None, []).result
  {
    var outcomes := ItemOutcomes(items, asks, parse);
    var cp := SequentialCheckpoints(outcomes, 0, interval)[k];
    var m := cp.completed;
    FreshRunResult(items, asks, parse, 1, interval, []);
    ResumedRunResult(items, Shift(asks, m), parse, interval, cp);
    ItemOutcomesShift(items, asks, parse, m);
    SuccessesSplit(outcomes, m);
  }

  /** A sequential run resumed from a checkpoint within the file continues
      after its position, with its records. */
  lemma ResumedRunResult(items: seq<Record>, asks: Asks, parse: JsonParser, interval: int, cp: Checkpoint)
    requires 0 < cp.completed <= |items|
    ensures ConvertResumable(JsonArray(items), asks, parse, 1, true, interval, Some(Written(cp)), []).result
            == Ok(cp.converted + Successes(ItemOutcomes(items[cp.completed..], asks, parse)))
  {
    ResumeFromWritten(cp);
    var m := cp.completed;
    if m < |items| {
      assert Remaining(items, m) == items[m..];
    } else {
      assert cp.converted + Successes(ItemOutcomes(items[m..], asks, parse)) == cp.converted;
    }
  }

  lemma SuccessesSplit<T>(outcomes: seq<Option<T>>, m: nat)
    requires m <= |outcomes|
    ensures Successes(outcomes[..m]) + Successes(outcomes[m..]) == Successes(outcomes)
  {
    var front, back := outcomes[..m], outcomes[m..];
    assert front + back == outcomes;
    SuccessesAppend(front, back);
  }

  // ---------------------------------------------------------------------
  // Folder conversion

  /** The per-file input: the file's content, the model's behaviour, the
      content of the file's checkpoint and the completion order. */
  datatype ResumeJob = ResumeJob(content: FileContent, asks: Asks, stored: Option<Stored>, order: seq<nat>)

  /** The statistics `convert_folder_sft_to_dpo_optimized` returns. */
  datatype ResumeStats = ResumeStats(results: seq<ConversionEntry>, totalConverted: nat, totalFiles: nat)

  /** `e` records a file whose resumable conversion returned a list. */
  predicate ResumedEntryOf(e: ConversionEntry, outputFolder: string, job: string -> ResumeJob, parse: JsonParser,
                           concurrency: int, resume: bool, interval: int)
  {
    var j := job(e.inputFile);
    && e.outputFile == DpoOutputPath(outputFolder, e.inputFile)
    && OrderFits(j.content, resume, j.stored, concurrency, j.order)
    && var c := ConvertResumable(j.content, j.asks, parse, concurrency, resume, interval, j.stored, j.order);
       c.result.Ok? && e.convertedCount == |c.result.value|
  }

  /** Every file's completion order fits it. */
  predicate JobsFit(files: seq<string>, job: string -> ResumeJob, resume: bool, concurrency: int) {
    forall k :: 0 <= k < |files| ==> OrderFits(job(files[k]).content, resume, job(files[k]).stored, concurrency, job(files[k]).order)
  }

  /** Every entry of `r` records one of `files` whose conversion returned a
      list. */
  predicate ResumedEntries(r: seq<ConversionEntry>, files: seq<string>, outputFolder: string, job: string -> ResumeJob,
                           parse: JsonParser, concurrency: int, resume: bool, interval: int)
  {
    forall k :: 0 <= k < |r| ==>
      r[k].inputFile in files && ResumedEntryOf(r[k], outputFolder, job, parse, concurrency, resume, interval)
  }

  lemma ResumedEntriesWiden(r: seq<ConversionEntry>, files: seq<string>, outputFolder: string,
                            job: string -> ResumeJob, parse: JsonParser, concurrency: int, resume: bool, interval: int)
    requires |files| > 0
    requires ResumedEntries(r, files[..|files| - 1], outputFolder, job, parse, concurrency, resume, interval)
    ensures ResumedEntries(r, files, outputFolder, job, parse, concurrency, resume, interval)
  {
    forall k | 0 <= k < |r| ensures r[k].inputFile in files {
      InDropLast(r[k].inputFile, files);
    }
  }

  lemma InDropLast<T>(x: T, s: seq<T>)
    requires |s| > 0 && x in s[..|s| - 1]
    ensures x in s
  {
    var i :| 0 <= i < |s| - 1 && s[..|s| - 1][i] == x;
    assert s[i] == x;
  }

  lemma ResumedEntriesAppend(r: seq<ConversionEntry>, e: ConversionEntry, files: seq<string>, outputFolder: string,
                             job: string -> ResumeJob, parse: JsonParser, concurrency: int, resume: bool, interval: int)
    requires ResumedEntries(r, files, outputFolder, job, parse, concurrency, resume, interval)
    requires e.inputFile in files && ResumedEntryOf(e, outputFolder, job, parse, concurrency, resume, interval)
    ensures ResumedEntries(r + [e], files, outputFolder, job, parse, concurrency, resume, interval)
  {
    forall k | 0 <= k < |r| + 1
      ensures (r + [e])[k].inputFile in files
      ensures ResumedEntryOf((r + [e])[k], outputFolder, job, parse, concurrency, resume, interval)
    {
      if k < |r| {
        assert (r + [e])[k] == r[k];
      }
    }
  }

  /** The per-file loop: a file whose conversion raises is skipped. */
  function ResumeFiles(files: seq<string>, outputFolder: string, job: string -> ResumeJob, parse: JsonParser,
                       concurrency: int, resume: bool, interval: int): (r: seq<ConversionEntry>)
    requires JobsFit(files, job, resume, concurrency)
    ensures |r| <= |files|
    ensures ResumedEntries(r, files, outputFolder, job, parse, concurrency, resume, interval)
    decreases |files|
  {
    if |files| == 0 then []
    else
      var f := files[|files| - 1];
      var j := job(f);
      assert JobsFit(files[..|files| - 1], job, resume, concurrency) by {
        assert forall k :: 0 <= k < |files| - 1 ==> files[..|files| - 1][k] == files[k];
      }
      assert OrderFits(j.content, resume, j.stored, concurrency, j.order);
      var prev := ResumeFiles(files[..|files| - 1], outputFolder, job, parse, concurrency, resume, interval);
      ResumedEntriesWiden(prev, files, outputFolder, job, parse, concurrency, resume, interval);
      var c := ConvertResumable(j.content, j.asks, parse, concurrency, resume, interval, j.stored, j.order);
      if c.result.Err? then prev
      else
        var e := ConversionEntry(f, DpoOutputPath(outputFolder, f), |c.result.value|);
        assert ResumedEntryOf(e, outputFolder, job, parse, concurrency, resume, interval);
        ResumedEntriesAppend(prev, e, files, outputFolder, job, parse, concurrency, resume, interval);
        prev + [e]
  }

  /** The entry a file gets: its output path and record count when its
      resumable conversion returns a list, nothing when it raises. A file
      whose completion order does not cover its tasks gets nothing; every
      lemma below rules that case out through `JobsFit`. */
  function ResumeEntryFor(f: string, outputFolder: string, job: string -> ResumeJob, parse: JsonParser,
                          concurrency: int, resume: bool, interval: int): (r: Option<ConversionEntry>)
    ensures OrderFits(job(f).content, resume, job(f).stored, concurrency, job(f).order) ==>
              (r.Some? <==>
                 ConvertResumable(job(f).content, job(f).asks, parse, concurrency, resume, interval, job(f).stored,
                                  job(f).order).result.Ok?)
    ensures r.Some? ==> r.value.inputFile == f && ResumedEntryOf(r.value, outputFolder, job, parse, concurrency, resume, interval)
  {
    var j := job(f);
    if !OrderFits(j.content, resume, j.stored, concurrency, j.order) then None
    else
      var c := ConvertResumable(j.content, j.asks, parse, concurrency, resume, interval, j.stored, j.order);
      if c.result.Err? then None else Some(ConversionEntry(f, DpoOutputPath(outputFolder, f), |c.result.value|))
  }

  /** `ResumeEntryFor` as a function of the file alone. */
  function EntryFn(outputFolder: string, job: string -> ResumeJob, parse: JsonParser, concurrency: int, resume: bool,
                   interval: int): string -> Option<ConversionEntry>
  {
    f => ResumeEntryFor(f, outputFolder, job, parse, concurrency, resume, interval)
  }

  /** The entry each file gets, in the order of the files. */
  function ResumeEntries(files: seq<string>, outputFolder: string, job: string -> ResumeJob, parse: JsonParser,
                         concurrency: int, resume: bool, interval: int): seq<Option<ConversionEntry>>
  {
    MapSeq(EntryFn(outputFolder, job, parse, concurrency, resume, interval), files)
  }

  /** One more file adds its entry, if it has one, at the end. */
  lemma ResumeFilesStep(files: seq<string>, outputFolder: string, job: string -> ResumeJob, parse: JsonParser,
                        concurrency: int, resume: bool, interval: int)
    requires |files| > 0 && JobsFit(files, job, resume, concurrency)
    ensures JobsFit(files[..|files| - 1], job, resume, concurrency)
    ensures var e := ResumeEntryFor(files[|files| - 1], outputFolder, job, parse, concurrency, resume, interval);
            ResumeFiles(files, outputFolder, job, parse, concurrency, resume, interval)
            == ResumeFiles(files[..|files| - 1], outputFolder, job, parse, concurrency, resume, interval)
               + (if e.Some? then [e.value] else [])
  {
    assert forall k :: 0 <= k < |files| - 1 ==> files[..|files| - 1][k] == files[k];
  }

  /** The entries are exactly those of the files whose conversion returned,
      in the order of the files: none is dropped and none is invented. */
  lemma {:induction false} ResumeFilesExactly(files: seq<string>, outputFolder: string, job: string -> ResumeJob,
                                              parse: JsonParser, concurrency: int, resume: bool, interval: int)
    requires JobsFit(files, job, resume, concurrency)
    ensures ResumeFiles(files, outputFolder, job, parse, concurrency, resume, interval)
            == Successes(ResumeEntries(files, outputFolder, job, parse, concurrency, resume, interval))
    decreases |files|
  {
    if |files| > 0 {
      var init := files[..|files| - 1];
      ResumeFilesStep(files, outputFolder, job, parse, concurrency, resume, interval);
      ResumeFilesExactly(init, outputFolder, job, parse, concurrency, resume, interval);
      MapSeqSnoc(EntryFn(outputFolder, job, parse, concurrency, resume, interval), files);
    }
  }

  /** `convert_folder_sft_to_dpo_optimized(folder, output_folder,
      concurrency, resume, interval)`. Its `total_files` counts the files
      that converted, not the JSON files found. */
  function ResumeFolder(folder: string, listing: seq<string>, outputFolder: string, job: string -> ResumeJob,
                        parse: JsonParser, concurrency: int, resume: bool, interval: int): (r: Result<ResumeStats>)
    requires JobsFit(JsonFilesIn(folder, listing), job, resume, concurrency)
    ensures |JsonFilesIn(folder, listing)| == 0 <==> r == Err(ValueError(NoJsonFilesInFolder))
    ensures r.Ok? ==>
              && r.value.totalFiles == |r.value.results| <= |JsonFilesIn(folder, listing)|
              && r.value.totalConverted == TotalConverted(r.value.results)
              && forall k :: 0 <= k < |r.value.results| ==>
                   r.value.results[k].inputFile in JsonFilesIn(folder, listing)
                   && ResumedEntryOf(r.value.results[k], outputFolder, job, parse, concurrency, resume, interval)
  {
    var files := JsonFilesIn(folder, listing);
    if |files| == 0 then Err(ValueError(NoJsonFilesInFolder))
    else
      var results := ResumeFiles(files, outputFolder, job, parse, concurrency, resume, interval);
      Ok(ResumeStats(results, TotalConverted(results), |results|))
  }

  /** The results are exactly the entries of the `.json` files whose
      conversion returned, in listing order. */
  lemma ResumeFolderExactly(folder: string, listing: seq<string>, outputFolder: string, job: string -> ResumeJob,
                            parse: JsonParser, concurrency: int, resume: bool, interval: int)
    requires JobsFit(JsonFilesIn(folder, listing), job, resume, concurrency)
    requires |JsonFilesIn(folder, listing)| > 0
    ensures var r := ResumeFolder(folder, listing, outputFolder, job, parse, concurrency, resume, interval);
            r.Ok? && r.value.results
                     == Successes(ResumeEntries(JsonFilesIn(folder, listing), outputFolder, job, parse, concurrency,
                                                resume, interval))
  {
    ResumeFilesExactly(JsonFilesIn(folder, listing), outputFolder, job, parse, concurrency, resume, interval);
  }

  /** A `.json` file of the listing whose conversion returns is recorded; a
      failing file is only skipped. */
  lemma ConvertedFileRecorded(folder: string, listing: seq<string>, outputFolder: string, job: string -> ResumeJob,
                              parse: JsonParser, concurrency: int, resume: bool, interval: int, i: nat)
    requires JobsFit(JsonFilesIn(folder, listing), job, resume, concurrency)
    requires i < |listing| && EndsWith(listing[i], JsonExt)
    requires var j := job(Join(folder, listing[i]));
             OrderFits(j.content, resume, j.stored, concurrency, j.order)
             && ConvertResumable(j.content, j.asks, parse, concurrency, resume, interval, j.stored, j.order).result.Ok?
    ensures var r := ResumeFolder(folder, listing, outputFolder, job, parse, concurrency, resume, interval);
            r.Ok? && exists k :: 0 <= k < |r.value.results| && r.value.results[k].inputFile == Join(folder, listing[i])
  {
    var path := Join(folder, listing[i]);
    var files := JsonFilesIn(folder, listing);
    JsonFileConsidered(folder, listing, i);
    var j :| 0 <= j < |files| && files[j] == path;
    ResumeFolderExactly(folder, listing, outputFolder, job, parse, concurrency, resume, interval);
    var fn := EntryFn(outputFolder, job, parse, concurrency, resume, interval);
    var s := MapSeq(fn, files);
    var entry := ResumeEntryFor(path, outputFolder, job, parse, concurrency, resume, interval);
    assert s[j] == fn(path) == entry;
    var e := entry.value;
    InSuccesses(s, e);
    var results := ResumeFolder(folder, listing, outputFolder, job, parse, concurrency, resume, interval).value.results;
    assert results == Successes(s);
    var k :| 0 <= k < |results| && results[k] == e;
  }
}
