/**
 * `OptimizedDataGenerator` (src/optimized_data_generator.py): generation
 * that appends each sample to the output file as it arrives and keeps a
 * checkpoint of the completed count, so that an interrupted run can resume.
 *
 * As written the class never sets the per-type generators it calls, so every
 * call raises; the model takes what each generation call gives as a
 * parameter (`TaskResult`), which covers that case (`MissingGeneratorFails`)
 * and states the checkpoint and resume arithmetic for a working generator.
 * Results are numbered in the order the loop observes them: task order for
 * the sequential run, completion order for the concurrent one.
 */
module ResumableGeneration {

  import opened Wrappers
  import opened Text
  import opened Paths
  import opened Records
  import opened Resumable

  /** What one generation call gave: it raised, it returned a falsy value,
      or it returned a sample. A generated sample always carries its keys, so
      `Produced` holds a non-empty object; a call that returns `{}` is
      `Empty`, as `if sample:` treats it. */
  datatype TaskResult = Raised | Empty | Produced(sample: Record)

  /** The output file: absent, a JSON list of records, or anything else
      (another JSON value, or content that cannot be read). */
  datatype OutputFile = Absent | Listed(records: seq<Record>) | Unlisted

  /** `append_to_output_file`: a missing file is first created as `[]`;
      when the content is not a list the error is swallowed and the file is
      left as it was. */
  function Append(f: OutputFile, rec: Record): (r: OutputFile)
    ensures r.Listed? <==> !f.Unlisted?
    ensures f.Unlisted? ==> r == f
  {
    match f
    case Absent => Listed([rec])
    case Listed(records) => Listed(records + [rec])
    case Unlisted => Unlisted
  }

  /** The file after appending `recs` one by one. */
  function AppendAll(f: OutputFile, recs: seq<Record>): OutputFile {
    if |recs| == 0 then f else Append(AppendAll(f, recs[..|recs| - 1]), recs[|recs| - 1])
  }

  /** Appending to a list file extends the list; a missing file ends up
      holding exactly the records appended; other content is untouched. */
  lemma {:induction false} AppendAllContents(f: OutputFile, recs: seq<Record>)
    ensures f.Listed? ==> AppendAll(f, recs) == Listed(f.records + recs)
    ensures f.Absent? && |recs| > 0 ==> AppendAll(f, recs) == Listed(recs)
    ensures f.Unlisted? ==> AppendAll(f, recs) == Unlisted
  {
    if |recs| > 0 {
      var init := recs[..|recs| - 1];
      AppendAllContents(f, init);
      assert init + [recs[|recs| - 1]] == recs;
      if f.Absent? && |init| == 0 {
        assert recs == [recs[0]];
      }
    }
  }

  // ---------------------------------------------------------------------
  // Reference definitions over the first k results

  /** The samples among the first `k` results, in order. */
  function Samples(results: nat -> TaskResult, k: nat): (r: seq<Record>)
    ensures |r| <= k
  {
    if k == 0 then []
    else Samples(results, k - 1) + (if results(k - 1).Produced? then [results(k - 1).sample] else [])
  }

  /** None of the first `k` calls raised. */
  predicate NoRaise(results: nat -> TaskResult, k: nat) {
    forall j :: 0 <= j < k ==> !results(j).Raised?
  }

  /** The number of calls made before the first one that raised (`k` when
      none did). */
  function StopAt(results: nat -> TaskResult, k: nat): (s: nat)
    ensures s <= k
    ensures s == k <==> NoRaise(results, k)
    ensures s < k ==> results(s).Raised? && NoRaise(results, s)
  {
    if k == 0 then 0
    else
      var s := StopAt(results, k - 1);
      if s < k - 1 then s
      else if results(k - 1).Raised? then k - 1
      else k
  }

  /** One past the position of the last sample among the first `k` results
      (zero when there is none). */
  function Reached(results: nat -> TaskResult, k: nat): (n: nat)
    ensures n <= k
    ensures n > 0 ==> results(n - 1).Produced?
    ensures forall j :: n <= j < k ==> !results(j).Produced?
  {
    if k == 0 then 0
    else if results(k - 1).Produced? then k
    else Reached(results, k - 1)
  }

  /** The last sample's position bounds the number of samples, and equals it
      when no call before it returned an empty value. */
  lemma {:induction false} SamplesWithinReached(results: nat -> TaskResult, k: nat)
    ensures |Samples(results, k)| <= Reached(results, k)
    ensures (forall j :: 0 <= j < Reached(results, k) ==> results(j).Produced?) ==>
              |Samples(results, k)| == Reached(results, k)
  {
    if k > 0 {
      SamplesWithinReached(results, k - 1);
      if !results(k - 1).Produced? {
        assert |Samples(results, k)| == |Samples(results, k - 1)|;
      }
    }
  }

  /** All of the first `k` calls gave a sample exactly when there are `k`
      samples. */
  lemma {:induction false} AllProduced(results: nat -> TaskResult, k: nat)
    ensures |Samples(results, k)| == k <==> forall j :: 0 <= j < k ==> results(j).Produced?
  {
    if k > 0 {
      AllProduced(results, k - 1);
      if !results(k - 1).Produced? {
        assert |Samples(results, k)| == |Samples(results, k - 1)| <= k - 1;
      }
    }
  }

  // ---------------------------------------------------------------------
  // The two loops

  /** The sequential loop's state: the output file, the checkpoint's
      completed count, and whether it has not raised. */
  datatype Progress = Progress(output: OutputFile, completed: int, ok: bool)

  /** `_generate_sequential_optimized` over `k` calls: a sample is appended
      and the count set to the position after it; an empty value is
      skipped; a call that raises ends the loop with failure. */
  function SequentialRun(results: nat -> TaskResult, k: nat, start: int, output: OutputFile): (p: Progress)
    ensures p.ok <==> NoRaise(results, k)
    ensures p.output == AppendAll(output, Samples(results, StopAt(results, k)))
    ensures p.completed == start + Reached(results, StopAt(results, k))
  {
    if k == 0 then Progress(output, start, true)
    else
      var p := SequentialRun(results, k - 1, start, output);
      if !p.ok then p
      else
        match results(k - 1)
        case Raised => Progress(p.output, p.completed, false)
        case Empty =>
          assert Samples(results, k) == Samples(results, k - 1);
          p
        case Produced(rec) =>
          assert Samples(results, k) == Samples(results, k - 1) + [rec];
          Progress(Append(p.output, rec), start + k, true)
  }

  /** The concurrent loop's state: the output file and the number of
      samples appended. */
  datatype Tally = Tally(output: OutputFile, count: nat)

  /** `_generate_concurrent_optimized` over `k` completions: a sample is
      appended and counted; an empty value or a raise is skipped. */
  function ConcurrentRun(results: nat -> TaskResult, k: nat, output: OutputFile): (t: Tally)
    ensures t.count == |Samples(results, k)|
    ensures t.output == AppendAll(output, Samples(results, k))
  {
    if k == 0 then Tally(output, 0)
    else
      var t := ConcurrentRun(results, k - 1, output);
      match results(k - 1)
      case Produced(rec) =>
        assert Samples(results, k) == Samples(results, k - 1) + [rec];
        Tally(Append(t.output, rec), t.count + 1)
      case _ =>
        assert Samples(results, k) == Samples(results, k - 1);
        t
  }

  // ---------------------------------------------------------------------
  // The whole call

  const SftType: string := "sft"
  const DpoType: string := "dpo"

  /** `get_checkpoint_file`: the output's stem, the dataset type and
      `_checkpoint.json`, in the checkpoint directory. */
  function CheckpointFile(dir: string, output: string, datasetType: string): (r: string)
    ensures EndsWith(r, CheckpointSuffix)
    ensures Sep !in datasetType ==> Basename(r) == PathStem(output) + "_" + datasetType + CheckpointSuffix
    ensures Sep !in datasetType && PlainDir(dir) ==> Dirname(r) == dir
  {
    var name := PathStem(output) + "_" + datasetType + CheckpointSuffix;
    SuffixTransitive(CheckpointSuffix, name, Join(dir, name));
    if Sep !in datasetType then
      CheckpointSuffixSepFree();
      assert Sep !in "_";
      BasenameOfJoin(dir, name);
      if PlainDir(dir) then
        DirnameOfJoin(dir, name);
        Join(dir, name)
      else Join(dir, name)
    else Join(dir, name)
  }

  /** The checkpoint as this class writes it: the completed count among
      other keys, and no converted records. */
  function CountCheckpoint(completed: int): (s: Stored)
    ensures Truthy(s) && ResumePoint(true, Some(s)) == Ok(Start(completed, []))
  {
    StoredObject(Some(completed), None, true)
  }

  /** The output file and the checkpoint file. */
  datatype GenState = GenState(output: OutputFile, checkpoint: Option<Stored>)

  /** What `generate_dataset_optimized` returns and the files it leaves. */
  datatype GenRun = GenRun(success: bool, after: GenState)

  /** Python's `range(n)` length. */
  function Tasks(n: int): (k: nat)
    ensures n > 0 ==> k == n
    ensures n <= 0 ==> k == 0
  {
    if n > 0 then n else 0
  }

  /** `_generate_concurrent_optimized` for `remaining` tasks on a pool of
      `workers` threads, followed by the checkpoint deletion on success.
      `ThreadPoolExecutor` refuses a worker count below 1 with `ValueError`,
      which the method catches: no call is made and the run fails with the
      checkpoint still at `start`. */
  function ConcurrentContinue(start: int, remaining: int, workers: int, results: nat -> TaskResult,
                              output: OutputFile): (r: GenRun)
    ensures r.success <==> r.after.checkpoint.None?
    ensures workers <= 0 ==> r == GenRun(false, GenState(output, Some(CountCheckpoint(start))))
    ensures workers > 0 ==> r.success == (|Samples(results, Tasks(remaining))| == remaining)
    ensures workers > 0 ==> r.after.output == AppendAll(output, Samples(results, Tasks(remaining)))
    ensures workers > 0 && !r.success ==>
              r.after.checkpoint == Some(CountCheckpoint(start + |Samples(results, Tasks(remaining))|))
  {
    if workers <= 0 then GenRun(false, GenState(output, Some(CountCheckpoint(start))))
    else
      var t := ConcurrentRun(results, Tasks(remaining), output);
      var ok := t.count == remaining;
      GenRun(ok, GenState(t.output, if ok then None else Some(CountCheckpoint(start + t.count))))
  }

  /** `_generate_sequential_optimized` for `remaining` tasks, followed by
      the checkpoint deletion on success. */
  function SequentialContinue(start: int, remaining: int, results: nat -> TaskResult, output: OutputFile): (r: GenRun)
    ensures r.success <==> r.after.checkpoint.None?
    ensures r.success == NoRaise(results, Tasks(remaining))
    ensures r.after.output == AppendAll(output, Samples(results, StopAt(results, Tasks(remaining))))
    ensures !r.success ==>
              r.after.checkpoint == Some(CountCheckpoint(start + Reached(results, StopAt(results, Tasks(remaining)))))
  {
    var p := SequentialRun(results, Tasks(remaining), start, output);
    GenRun(p.ok, GenState(p.output, if p.ok then None else Some(CountCheckpoint(p.completed))))
  }

  /** Generation from `start` up to `num`: the initial checkpoint records
      `start`; the checkpoint is deleted when the loop reports success and
      otherwise keeps the last count. An unknown dataset type fails before
      any call when there is anything to generate, and so does a concurrent
      run on fewer than one worker. */
  function Continue(datasetType: string, num: int, start: int, concurrent: bool, workers: int,
                    results: nat -> TaskResult, output: OutputFile): (r: GenRun)
    ensures r.success <==> r.after.checkpoint.None?
    ensures num - start > 0 && datasetType != SftType && datasetType != DpoType ==>
              r == GenRun(false, GenState(output, Some(CountCheckpoint(start))))
    ensures concurrent && workers <= 0 ==> r == GenRun(false, GenState(output, Some(CountCheckpoint(start))))
    ensures (datasetType == SftType || datasetType == DpoType) && concurrent ==>
              r == ConcurrentContinue(start, num - start, workers, results, output)
    ensures (datasetType == SftType || datasetType == DpoType) && !concurrent ==>
              r == SequentialContinue(start, num - start, results, output)
  {
    var remaining := num - start;
    if remaining > 0 && datasetType != SftType && datasetType != DpoType then
      GenRun(false, GenState(output, Some(CountCheckpoint(start))))
    else if concurrent then ConcurrentContinue(start, remaining, workers, results, output)
    else SequentialContinue(start, remaining, results, output)
  }

  /** `generate_dataset_optimized(type, num, output, mode, fixed,
      concurrent, workers, resume)` from the files `before`. */
  function Generate(datasetType: string, num: int, concurrent: bool, workers: int, resume: bool,
                    results: nat -> TaskResult, before: GenState): (r: GenRun)
    ensures r.success <==> r.after.checkpoint.None?
    ensures !resume ==>
              r == Continue(datasetType, num, 0, concurrent, workers, results,
                            if before.output.Absent? then Absent else Listed([]))
    ensures resume && (before.checkpoint.None? || !Truthy(before.checkpoint.value)) ==>
              r == Continue(datasetType, num, 0, concurrent, workers, results, before.output)
    ensures resume && before.checkpoint.Some? && Truthy(before.checkpoint.value) && before.checkpoint.value.StoredOther? ==>
              r == GenRun(false, before)
  {
    if resume && before.checkpoint.Some? && Truthy(before.checkpoint.value) then
      match before.checkpoint.value
      case StoredOther(_) => GenRun(false, before)
      case StoredObject(completed, _, _) =>
        var start := completed.GetOr(0);
        if start >= num then GenRun(true, GenState(before.output, None))
        else Continue(datasetType, num, start, concurrent, workers, results, before.output)
    else
      // without resuming, an existing output is reset to an empty list
      var output := if resume || before.output.Absent? then before.output else Listed([]);
      Continue(datasetType, num, 0, concurrent, workers, results, output)
  }

  /** A resumed run whose checkpoint already reaches `num` deletes the
      checkpoint and succeeds without touching the output. */
  lemma AlreadyDone(datasetType: string, num: int, concurrent: bool, workers: int, results: nat -> TaskResult,
                    before: GenState, completed: int)
    requires before.checkpoint == Some(CountCheckpoint(completed)) && completed >= num
    ensures Generate(datasetType, num, concurrent, workers, true, results, before)
            == GenRun(true, GenState(before.output, None))
  {
  }

  /** A resumed run generates only the tasks after the checkpoint's count. */
  lemma ResumeSchedulesRest(datasetType: string, num: int, concurrent: bool, workers: int, results: nat -> TaskResult,
                            before: GenState, completed: int)
    requires before.checkpoint == Some(CountCheckpoint(completed)) && completed < num
    ensures Generate(datasetType, num, concurrent, workers, true, results, before)
            == Continue(datasetType, num, completed, concurrent, workers, results, before.output)
  {
  }

  /** Without resuming, an existing output ends up holding only this run's
      samples: none when the pool could not be built. */
  lemma FreshRunReplacesOutput(datasetType: string, num: int, concurrent: bool, workers: int,
                               results: nat -> TaskResult, before: GenState)
    requires datasetType == SftType || datasetType == DpoType
    requires !before.output.Absent?
    ensures var r := Generate(datasetType, num, concurrent, workers, false, results, before);
            var done := if concurrent then (if workers > 0 then Tasks(num) else 0) else StopAt(results, Tasks(num));
            r.after.output == Listed(Samples(results, done))
  {
    var done := if concurrent then (if workers > 0 then Tasks(num) else 0) else StopAt(results, Tasks(num));
    AppendAllContents(Listed([]), Samples(results, done));
    assert [] + Samples(results, done) == Samples(results, done);
  }

  /** The concurrent run succeeds exactly when the pool has a worker and
      every scheduled call gave a sample. */
  lemma ConcurrentSuccess(datasetType: string, num: int, start: int, workers: int, results: nat -> TaskResult,
                          output: OutputFile)
    requires datasetType == SftType || datasetType == DpoType
    requires num - start >= 0
    ensures Continue(datasetType, num, start, true, workers, results, output).success
            <==> workers > 0 && forall j :: 0 <= j < num - start ==> results(j).Produced?
  {
    AllProduced(results, num - start);
  }

  /** A failed sequential run's checkpoint lies between the samples made
      and the positions reached. */
  lemma SequentialCheckpointBounds(start: int, remaining: int, results: nat -> TaskResult, output: OutputFile)
    requires !SequentialContinue(start, remaining, results, output).success
    ensures var done := StopAt(results, Tasks(remaining));
            exists c :: SequentialContinue(start, remaining, results, output).after.checkpoint == Some(CountCheckpoint(c))
                        && start + |Samples(results, done)| <= c <= start + done
  {
    var done := StopAt(results, Tasks(remaining));
    SamplesWithinReached(results, done);
    var c := start + Reached(results, done);
    assert SequentialContinue(start, remaining, results, output).after.checkpoint == Some(CountCheckpoint(c));
  }

  /** As written no per-type generator is ever set, so every call raises:
      whenever there is something to generate the run fails and the output
      is left as it was. */
  lemma MissingGeneratorFails(datasetType: string, num: int, start: int, concurrent: bool, workers: int,
                              results: nat -> TaskResult, output: OutputFile)
    requires forall j :: results(j) == Raised
    requires num - start > 0
    ensures var r := Continue(datasetType, num, start, concurrent, workers, results, output);
            !r.success && r.after.output == output
  {
    assert !results(0).Produced?;
    assert Reached(results, 0) == 0 && StopAt(results, Tasks(num - start)) == 0;
    if concurrent && workers > 0 {
      assert |Samples(results, Tasks(num - start))| == 0 by {
        SamplesWithinReached(results, Tasks(num - start));
        assert Reached(results, Tasks(num - start)) == 0;
      }
    }
  }
}
