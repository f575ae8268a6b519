# dataset-factory core, modelled in Dafny

dataset-factory builds instruction-tuning datasets with a language model:

- SFT records: instruction / input / output.
- DPO records: instruction / input / chosen / rejected.
- Conversions of SFT files into DPO files.

This project models the core of that system as pure Dafny functions over immutable data, and proves properties of it:

- the extraction of a payload from a raw model reply (`extract_content_between_backticks`);
- the parsing of an instruction list;
- the dataset loader and its few-shot examples;
- the per-record generation pipelines;
- the sequential and concurrent dataset runs, and the folder mode;
- the SFT-to-DPO converter, with the resumable (checkpointing) variant;
- the resumable dataset generator;
- the dataset helpers: merge, split and analyse;
- the prompt configuration manager.

Everything the program gets from outside is a parameter:

- **The model service** is `Ask = Request -> Result<string>`: the raw reply for a request, or the error raised while building it.
- **JSON decoding** of a reply is the parameter `JsonParser`.
- **Files** are read as `FileContent`: unreadable, one JSON value, or a JSON list.
- **Randomness** (`random.randint`, `random.sample`, `random.shuffle`) is a parameter.
- **The clock's timestamps** are a parameter.
- **The completion order of the thread pool** is a parameter `order`, a permutation of the task indices: `Execution.CoversTasks` requires it to list each index exactly once.

Writes are recorded as values, such as `Save(path, data)`, a checkpoint list, or the output file's state, and are assumed to succeed.

The modules follow the program's structure:

| module | file | models |
|---|---|---|
| `Wrappers` | wrappers.dfy | `Option`, `Result`, and the exceptions raised |
| `Text` | text.dfy | `str.strip`, `lower`, `split`, `find`, prefixes and suffixes |
| `Paths` | paths.dfy | `os.path.basename`/`dirname`/`join`/`splitext`, `Path.stem` |
| `Slices` | slices.dfy | Python slicing with negative and out-of-range bounds |
| `Records` | records.dfy | dataset records and their JSON objects |
| `Extraction` | extraction.dfy | `extract_content_between_backticks` and its two regular expressions |
| `Instructions` | instructions.dfy | the instruction-list parsing of `generate_instructions` |
| `Loader` | loader.dfy | `DataLoader` |
| `Caller` | caller.dfy | `ModelCallerFactory` |
| `Pipelines` | pipelines.dfy | one SFT record, one DPO record, one SFT-to-DPO conversion |
| `Execution` | execution.dfy | the sequential and the `ThreadPoolExecutor` execution shapes |
| `Orchestration` | orchestration.dfy | `generate_dataset` and the separate-folder mode |
| `Conversion` | conversion.dfy | `SFTToDPOConverter` on files and folders |
| `Resumable` | resumable_converter.dfy | `OptimizedSFTToDPOConverter` |
| `ResumableGeneration` | resumable_generator.dfy | `OptimizedDataGenerator` |
| `DatasetUtils` | dataset_utils.dfy | `merge_datasets`, `split_dataset`, `analyze_dataset` |
| `PromptConfig` | prompt_config.dfy | `PromptConfigManager` |

Checkpoints hold a completed count and, for the converter, the converted records.

## Model

| member | source | states |
|---|---|---|
| Caller.BackendOf | src/model_caller.py:148-154 | The Ollama back end is chosen exactly when the lower-cased type is `ollama`. The OpenAI-compatible one is chosen exactly when it is `openai_compatible`. |
| Caller.BackendIgnoresCase | src/model_caller.py:148-150 | The choice of back end depends only on the lower-cased type name. |
| Caller.Connectivity | src/model_caller.py:174-191 | The check passes exactly when a reply came back with a non-whitespace character. Otherwise it raises `RuntimeError`. |
| Caller.Create | src/model_caller.py:135-158 | An unknown type raises `ValueError`. A constructor failure is propagated. A caller is returned exactly when the type is known, construction succeeds and the connectivity reply is non-blank. |
| Caller.WirePrompt | src/model_caller.py:64-70 | The prompt sent always starts with the caller's prompt. It is unchanged exactly for the OpenAI-compatible back end. |
| Extraction.FindJsonMatchIsSearch | src/model_caller.py:206-207 | The scan returns exactly the leftmost, greedy match of the `json` fence pattern, or nothing when the pattern matches nowhere. |
| Extraction.FindGeneralMatchIsSearch | src/model_caller.py:212-213 | The scan returns exactly the leftmost, lazy match of the general fence pattern, or nothing when it matches nowhere. |
| Extraction.JsonMatchIsGeneralMatch | src/model_caller.py:206-213 | Wherever the `json` pattern matches, the general pattern matches too. |
| Extraction.DropJsonLine | src/model_caller.py:216-218 | The result is stripped and an infix of the content. It is the rest after `json\n` when the lower-cased content starts with that. |
| Extraction.CutPrefix | src/model_caller.py:235-237 | The result is a suffix of the text. It is the left-stripped rest when the lower-cased text starts with the lower-cased prefix, and the text unchanged otherwise. |
| Extraction.CutSuffix | src/model_caller.py:241-243 | The result is a prefix of the text. It is the text unchanged unless the lower-cased text ends with the lower-cased suffix. |
| Extraction.ExtractContent | src/model_caller.py:194-245 | Whatever the reply, the payload is stripped and is an infix of the reply. |
| Extraction.JsonBlockWins | src/model_caller.py:205-209 | When the `json` pattern matches, the result is its captured `{…}` group. |
| Extraction.FencedBlockWins | src/model_caller.py:211-219 | Otherwise, when a fenced block exists, the result is its stripped body with a leading `json\n` line removed. |
| Extraction.UnfencedJsonDocument | src/model_caller.py:221-228 | Fence-free text that starts with `json\n`, and whose rest parses, yields the stripped rest. |
| Extraction.FallbackRule | src/model_caller.py:221-245 | Fence-free text that does not start with `json\n`, or whose rest does not parse, goes through the prefix list and the suffix list, then is stripped. |
| Extraction.PlainTextIsStripped | src/model_caller.py:232-245 | Fence-free text that matches no listed prefix or suffix is only stripped. |
| Extraction.FencedReplyExample | src/model_caller.py:211-219 | A fenced ```` ```INSTR_0``` ```` reply yields `INSTR_0`. |
| Extraction.CommentaryExample | src/model_caller.py:232-245 | Listed prefixes are removed in list order, each at most once, and then a listed suffix. The worked reply reduces to its answer. |
| Instructions.ParsedItems | src/data_generator.py:97-116 | Every parsed item is stripped and non-empty. An empty extraction yields no item. |
| Instructions.TopUp | src/data_generator.py:118-129 | The collected items are kept as a prefix. Each added line comes from the raw lines, is not commentary, and is not already collected. The added lines are pairwise distinct. |
| Instructions.TopUpKeepsNoDuplicates | src/data_generator.py:122-129 | The fallback keeps a duplicate-free list duplicate-free. |
| Instructions.GenerateInstructions | src/data_generator.py:93-132 | At most `n` items are returned, each stripped and non-empty. |
| Instructions.GenerateInstructionsShape | src/data_generator.py:99-132 | The extracted items come first and in order. The result is a prefix of them, or all of them followed by fallback lines. |
| Instructions.EnoughItemsSkipTopUp | src/data_generator.py:118-132 | With at least `n` extracted items, the result is the first `n` of them. |
| Instructions.TopUpLines | src/data_generator.py:118-129 | Each line added by the fallback is a stripped line of the raw reply. It is not commentary, repeats no extracted item, and repeats no other added line. |
| Instructions.NoDuplicatesWhenItemsDistinct | src/data_generator.py:97-132 | Distinct extracted items give a duplicate-free result. |
| Records.DpoRoundTrip | src/dataset_generators/dpo_generator.py:261-266 | Reading the four fields back from a DPO record's JSON object gives the record. |
| Records.SftRoundTrip | src/data_generator.py:211-215 | Reading the three fields back from an SFT record's JSON object gives the record. |
| Loader.FilePaths | src/data_loader.py:32-47 | A file yields itself. A directory yields its `*.json` files and fails when it has none. Other kinds fail. |
| Loader.Load | src/data_loader.py:28-68 | Each error case raises its own exception. On success, the data is the records of every file in order, and it is not empty. |
| Loader.FlattenAppend | src/data_loader.py:50-63 | Loading two batches of files loads their records in order. |
| Loader.LoadSingleFile | src/data_loader.py:36-60 | A single file holding a list yields its elements. A file holding any other value yields that one value. |
| Loader.CountRange | src/data_loader.py:85-87 | The clamped sample-count range lies within the dataset size and the requested bounds. |
| Loader.RandomSamples | src/data_loader.py:71-93 | An empty dataset raises. Otherwise the sample has the drawn count, and each sample is the record at its drawn position. |
| Loader.SampleSize | src/data_loader.py:85-93 | With non-negative bounds a sample is always drawn, and its size lies between the clamped minimum and the clamped maximum, even when the minimum exceeds the maximum. |
| Loader.PicksSubMultiset | src/data_loader.py:93 | Records taken at distinct positions occur among them no more often than in the dataset. |
| Loader.DropLastPick | src/data_loader.py:93 | Taking out the record at the last drawn position leaves the other picks as distinct picks of the remaining records, and removes exactly one copy of that record from the dataset. |
| Loader.SamplesWithoutReplacement | src/data_loader.py:93 | Sampling is without replacement: the sample is a sub-multiset of the dataset. |
| Loader.FormatExamples | src/data_loader.py:95-112 | The loop builds the block rendering of the examples, and nothing for no example. |
| Loader.FormatFromAppend | src/data_loader.py:105-112 | Rendering a list renders its halves in order, the second numbered on from the first. |
| Loader.LabelsDistinct | src/data_loader.py:107 | Different example positions get different labels. |
| Pipelines.Step | src/data_generator.py:134-158 | One step gives the extracted reply, or the error raised while building the request. |
| Pipelines.InstructionsStep | src/data_generator.py:70-132 | The step returns the parsed instruction list of the reply, never longer than requested. |
| Pipelines.ResolveInstruction | src/data_generator.py:199-203 | A usable fixed instruction is kept verbatim. Otherwise the drawn record's instruction is used, and it must be non-empty. An empty draw raises `IndexError`. |
| Pipelines.SftFromInstruction | src/data_generator.py:206-215 | A record keeps its instruction. The input request comes first, then the output request with that input. A failure reports the error of the last request made. |
| Pipelines.SftFixed | src/data_generator.py:188-215 | Fixed-instruction mode resolves the instruction first and makes no call when that fails. |
| Pipelines.SftComplete | src/data_generator.py:217-240 | An empty instruction list raises `ValueError`. A record uses the one generated instruction, with exactly three calls in order. |
| Pipelines.SftCompleteIsFixedWithGenerated | src/data_generator.py:188-240 | Complete mode gives the same record as fixed-instruction mode handed the generated instruction. |
| Pipelines.DpoFromInstruction | src/dataset_generators/dpo_generator.py:252-266 | The requests are input, chosen, then rejected, each using the previous answers. The record holds those answers. On failure, the last request made is the one whose error is returned. |
| Pipelines.DpoAfterInput | src/dataset_generators/dpo_generator.py:257-266 | Once the input is known, chosen is asked for, then rejected is asked for with that chosen answer. A failure returns the error of the last request made. |
| Pipelines.DpoFixed | src/dataset_generators/dpo_generator.py:235-266 | A usable fixed instruction is kept. A record takes exactly three calls. A failed resolution makes no call. |
| Pipelines.DpoComplete | src/dataset_generators/dpo_generator.py:268-295 | An empty instruction list raises. A record takes exactly four calls, the first asking for one instruction. |
| Pipelines.DpoCompleteIsFixedWithGenerated | src/dataset_generators/dpo_generator.py:235-295 | Complete mode gives the same record as fixed-instruction mode handed the generated instruction, and makes the same calls after the one that generated it. |
| Pipelines.DpoFixedKeepsInstruction | src/dataset_generators/dpo_generator.py:245-259 | A non-blank fixed instruction is kept verbatim, including surrounding spaces. The first call asks for its input and the last for rejected. |
| Pipelines.DpoRecordKeys | src/dataset_generators/dpo_generator.py:290-295 | A DPO record has exactly the keys instruction, input, chosen and rejected. |
| Pipelines.DpoSample | src/dataset_generators/dpo_generator.py:69-85 | `complete` and `input_output` dispatch to their modes. Any other mode raises `ValueError` without a call. |
| Pipelines.SftSample | src/data_generator.py:298-304 | The same dispatch, for the SFT generator's per-sample branch. |
| Pipelines.ConvertSample | src/dataset_generators/sft_to_dpo_converter.py:73-100 | A missing instruction or output raises before any call. Otherwise the fields are copied, output becomes chosen, and one request asks for rejected. |
| Pipelines.ConvertValidation | src/dataset_generators/sft_to_dpo_converter.py:83-93 | No call is made exactly when the instruction or the output is empty. The input is never checked. |
| Pipelines.ConvertDrawn | src/dataset_generators/sft_to_dpo_converter.py:62-71 | The first drawn record is converted. An empty draw raises `IndexError`. |
| Pipelines.Outcome | src/data_generator.py:352-366 | A task's outcome is present exactly when its run returned a record. |
| Execution.SuccessesAppend | src/data_generator.py:300-318 | Collection keeps every success in task order and drops every failure. |
| Execution.InSuccesses | src/data_generator.py:300-318 | A record is collected exactly when some task produced it. |
| Execution.PeriodicSavesArePrefixes | src/data_generator.py:309-310 | Every periodic save of a sequential run is a prefix of the final list. |
| Execution.NoPeriodicSave | src/data_generator.py:309-310 | A step is followed by a save exactly when it succeeded and its position is a multiple of the interval. |
| Execution.SlotsAfterContents | src/data_generator.py:374-380 | After some completions, slot `i` holds task `i`'s outcome once task `i` has completed, and is empty before. |
| Execution.AllSettled | src/data_generator.py:374-380 | Once every task has completed, the slots are exactly the outcomes. |
| Execution.OrderIndependent | src/data_generator.py:374-401 | The concurrent result is the same for every completion order, and it equals the sequential collection. |
| Execution.ViewsAreSubsequences | src/data_generator.py:388-391 | Every intermediate view of a concurrent run is a subsequence of its final list. |
| Execution.SnapshotsAreSubsequences | src/data_generator.py:388-391 | Every snapshot a concurrent run saves is a non-empty subsequence of its final list. |
| Orchestration.SavesTo | src/data_generator.py:309-325 | Each snapshot is written to the given path, in order. |
| Orchestration.Sequential | src/data_generator.py:268-328 | The result is the successes. The last write is the final list to the output. Every write goes to the output and holds a prefix of the final list. |
| Orchestration.Concurrent | src/data_generator.py:329-406 | The result is the successes for any completion order. Every write is a non-empty subsequence of the result. Nothing is written when nothing succeeded. |
| Orchestration.SequentialMatchesConcurrent | src/data_generator.py:263-266 | Both runs return the same list. |
| Orchestration.AllFailed | src/data_generator.py:325 | With every task failing, the sequential run still writes one empty list and the concurrent run writes nothing. |
| Orchestration.Merged | src/data_generator.py:263-266 | Concurrency above one selects the concurrent run, otherwise the sequential one. |
| Orchestration.SftOutcomes | src/data_generator.py:291-318 | Task `i` succeeds exactly when its per-sample run returns a record. |
| Orchestration.UnsupportedModeGeneratesNothing | src/data_generator.py:291-325 | An unsupported mode fails inside every task, so the run writes one empty list. |
| Orchestration.OutputName | src/dataset_generators/base_generator.py:297-308 | The name ends with `.json`. A custom name gets `.json` appended when it lacks it. Otherwise the name starts with the input's stem, `_` and the timestamp. |
| Orchestration.DefaultNameRoot | src/dataset_generators/base_generator.py:305-308 | A default output name splits back into the input's stem and the timestamp. |
| Orchestration.FileRun | src/dataset_generators/base_generator.py:289-327 | The per-file run returns the successes. The DataGenerator's variant writes nothing itself. Every write goes to the file's output path. |
| Orchestration.ProcessFile | src/dataset_generators/base_generator.py:275-345 | A file gets an entry exactly when it loads, the generator rebuilds, and something was generated. Otherwise nothing is recorded. |
| Orchestration.ProcessFileWritesOnePath | src/dataset_generators/base_generator.py:310-330 | Everything written for an input file goes to that file's output path. |
| Orchestration.Folder | src/dataset_generators/base_generator.py:244-353 | The combined data is the concatenation of the file entries' data. Each entry's count is its non-zero data length. |
| Orchestration.FolderResults | src/dataset_generators/base_generator.py:266-345 | The file entries are exactly the entries of the processed files, in the loader's order. |
| Orchestration.RebuildFailureSkipsAll | src/dataset_generators/base_generator.py:289-345 | When the generator cannot be rebuilt per file, every file is skipped and nothing is written or returned. |
| Orchestration.GenerateDataset | src/dataset_generators/base_generator.py:73-111 | Folder mode runs exactly for `separate` with more than one input file. Otherwise the merged run returns the successes. |
| Conversion.ItemOutcomes | src/dataset_generators/sft_to_dpo_converter.py:187-197 | Item `i`'s outcome is the conversion of item `i` with the model's behaviour for `i`. |
| Conversion.TempPath | src/dataset_generators/sft_to_dpo_converter.py:200-201 | The temporary file starts with the output's root, ends with `_temp.json`, and has nothing in between. |
| Conversion.ConvertSequential | src/dataset_generators/sft_to_dpo_converter.py:173-214 | The result is the successes. No temporary file is written without an output path. Each temporary write holds a prefix of the result. |
| Conversion.ConvertFile | src/dataset_generators/sft_to_dpo_converter.py:132-171 | An unreadable file or a non-list raises. Otherwise the result is the successes, at most one per item, and the final write is that list to the output. |
| Conversion.ConcurrentAnyOrder | src/dataset_generators/sft_to_dpo_converter.py:216-276 | The concurrent conversion returns the same list for every completion order. |
| Conversion.ConvertedFromItems | src/dataset_generators/sft_to_dpo_converter.py:73-100 | Every converted record carries the instruction, input and output of some item, with non-empty instruction and chosen. |
| Conversion.AllItemsConverted | src/dataset_generators/sft_to_dpo_converter.py:83-100 | When every item is valid and every call answers, every item is converted in order, with its output as chosen. |
| Conversion.JsonFilesIn | src/dataset_generators/sft_to_dpo_converter.py:296-299 | Only `.json` entries are kept, joined to the folder. |
| Conversion.JsonFilesInExactly | src/dataset_generators/sft_to_dpo_converter.py:296-299 | The files are exactly the `.json` entries of the listing joined to the folder, in listing order. |
| Conversion.JsonFileConsidered | src/dataset_generators/sft_to_dpo_converter.py:296-299 | Every `.json` entry of the listing, joined to the folder, is among the files. |
| Conversion.JsonFileFromListing | src/dataset_generators/sft_to_dpo_converter.py:296-299 | Every file is some `.json` entry of the listing joined to the folder. |
| Conversion.DpoOutputPath | src/dataset_generators/sft_to_dpo_converter.py:314-315 | The output name is `dpo_` followed by the input file's name, and its directory is the output folder when that has no trailing separator. |
| Conversion.ConvertFiles | src/dataset_generators/sft_to_dpo_converter.py:312-334 | Every entry records an input file that converted, with its output path and its converted count. A file that raises is skipped. |
| Conversion.ConvertFolder | src/dataset_generators/sft_to_dpo_converter.py:278-344 | It raises exactly when there is no `.json` file. The statistics count the files found, the files converted, and the total samples. |
| Conversion.EntryFor | src/dataset_generators/sft_to_dpo_converter.py:312-334 | A file gets an entry exactly when it holds a JSON list, and the entry records that file, its output path and its converted count. |
| Conversion.ConvertFilesExactly | src/dataset_generators/sft_to_dpo_converter.py:312-334 | The entries are exactly those of the files that hold a list, in file order: none is dropped and none is invented. |
| Conversion.ConvertFolderExactly | src/dataset_generators/sft_to_dpo_converter.py:278-344 | With a `.json` file present, the results are exactly the entries of the `.json` files that hold a list, in listing order. |
| Conversion.ListFileRecorded | src/dataset_generators/sft_to_dpo_converter.py:296-334 | A `.json` entry of the listing that holds a list gets a result entry. |
| Resumable.CheckpointPath | src/dataset_generators/optimized_sft_to_dpo_converter.py:60-63 | The checkpoint's name is the output's name without its extension, followed by `_checkpoint.json`. Its directory is the checkpoint directory when that has no trailing separator. |
| Resumable.ResumePoint | src/dataset_generators/optimized_sft_to_dpo_converter.py:116-125 | Without resuming, or without a truthy checkpoint, a run starts at 0 with no records. A checkpoint object supplies both values. Any other truthy value raises `AttributeError`. |
| Resumable.ResumeFromWritten | src/dataset_generators/optimized_sft_to_dpo_converter.py:65-75 | A written checkpoint reads back as the position and records it was written with. |
| Resumable.SequentialCheckpoints | src/dataset_generators/optimized_sft_to_dpo_converter.py:205-233 | Each checkpoint's count lies in this run's range. Its records are the successes up to that position. A zero interval writes none. |
| Resumable.SequentialCheckpointsArePrefixes | src/dataset_generators/optimized_sft_to_dpo_converter.py:217-226 | Each sequential checkpoint holds a prefix of this run's records. |
| Resumable.ConcurrentCheckpoints | src/dataset_generators/optimized_sft_to_dpo_converter.py:289-297 | Each checkpoint's count is `start` plus the number of records it holds. Those records are one of the run's views. |
| Resumable.ConcurrentCheckpointsAreSubsequences | src/dataset_generators/optimized_sft_to_dpo_converter.py:274-297 | Each concurrent checkpoint holds a subsequence of this run's records. |
| Resumable.Remaining | src/dataset_generators/optimized_sft_to_dpo_converter.py:138 | The remaining items are a suffix of the file. For a start inside the file there are exactly `len - start` of them. |
| Resumable.Proceed | src/dataset_generators/optimized_sft_to_dpo_converter.py:140-183 | The result is the resumed records followed by this run's successes. The output is written and the checkpoint deleted. A concurrent run with a zero interval and at least one remaining item raises `ZeroDivisionError` instead, and writes a checkpoint only when records were resumed. With no remaining item it returns the resumed records. |
| Resumable.ProceedFrom | src/dataset_generators/optimized_sft_to_dpo_converter.py:138-166 | Converting the items after a resume point writes the output exactly when the checkpoint is deleted, and the written records are the ones returned. |
| Resumable.ConvertItems | src/dataset_generators/optimized_sft_to_dpo_converter.py:116-166 | An error while reading the checkpoint is raised and nothing is written. A checkpoint at or past the end returns its records. Otherwise the output is written exactly when the checkpoint is deleted, and it holds the result. |
| Resumable.ConvertResumable | src/dataset_generators/optimized_sft_to_dpo_converter.py:88-183 | Each error case raises its own exception. The output is written exactly when the checkpoint is deleted, and then it holds the result. A checkpoint already at the end returns its records and writes nothing. |
| Resumable.ConvertsRemaining | src/dataset_generators/optimized_sft_to_dpo_converter.py:132-166 | A converting run returns the resumed records followed by the successes among the remaining items, in source order. |
| Resumable.AlreadyComplete | src/dataset_generators/optimized_sft_to_dpo_converter.py:132-135 | A checkpoint whose count reaches the end returns its stored records and writes nothing. |
| Resumable.ZeroIntervalConcurrent | src/dataset_generators/optimized_sft_to_dpo_converter.py:168-183 | A concurrent run with interval 0 and at least one remaining item raises `ZeroDivisionError`, and writes a checkpoint exactly when it resumed with records. With no remaining item it returns the resumed records and writes no checkpoint. |
| Resumable.ZeroIntervalNothingLeft | src/dataset_generators/optimized_sft_to_dpo_converter.py:274-289 | A concurrent run with interval 0 and nothing to convert never reaches the modulo: it returns, writes the output and deletes the checkpoint. |
| Resumable.FreshRunResult | src/dataset_generators/optimized_sft_to_dpo_converter.py:116-166 | Without a checkpoint, a run returns the successes among all items, in source order. |
| Resumable.FreshRunMatchesPlain | src/dataset_generators/optimized_sft_to_dpo_converter.py:88-166 | Without a checkpoint, the resumable conversion returns exactly what the plain conversion does. |
| Resumable.CheckpointsHoldOnlyThisRun | src/dataset_generators/optimized_sft_to_dpo_converter.py:196-226 | Every checkpoint a resumed run writes holds only this run's records. The resumed records are not in it. |
| Resumable.ItemOutcomesShift | src/dataset_generators/optimized_sft_to_dpo_converter.py:138-149 | Converting the remaining items gives the tail of the whole file's outcomes. |
| Resumable.ResumeAfterCheckpoint | src/dataset_generators/optimized_sft_to_dpo_converter.py:116-235 | Interrupting a fresh sequential run after any of its checkpoints and resuming from it returns the same list as the uninterrupted run. |
| Resumable.ResumedRunResult | src/dataset_generators/optimized_sft_to_dpo_converter.py:121-153 | A sequential run resumed from a checkpoint continues after its position, with its records. |
| Resumable.ResumeFiles | src/dataset_generators/optimized_sft_to_dpo_converter.py:331-354 | Every entry records an input file whose conversion returned a list, with its output path and that list's length. |
| Resumable.ResumeFolder | src/dataset_generators/optimized_sft_to_dpo_converter.py:305-360 | It raises exactly when there is no `.json` file. As written, `total_files` counts the converted files. `total_converted` sums their counts. |
| Resumable.ResumeEntryFor | src/dataset_generators/optimized_sft_to_dpo_converter.py:331-354 | A file whose completion order fits gets an entry exactly when its resumable conversion returns a list, and the entry records that file with its output path and that list's length. |
| Resumable.ResumeFilesExactly | src/dataset_generators/optimized_sft_to_dpo_converter.py:331-354 | The entries are exactly those of the files whose conversion returned, in file order: none is dropped and none is invented. |
| Resumable.ResumeFolderExactly | src/dataset_generators/optimized_sft_to_dpo_converter.py:305-360 | With a `.json` file present, the results are exactly the entries of the `.json` files whose conversion returned, in listing order. |
| Resumable.ConvertedFileRecorded | src/dataset_generators/optimized_sft_to_dpo_converter.py:323-354 | A `.json` entry of the listing whose conversion returns gets a result entry. |
| ResumableGeneration.Append | src/optimized_data_generator.py:71-91 | Appending keeps a list file a list and creates a missing one. A file that is not a list is left as it is. |
| ResumableGeneration.AppendAllContents | src/optimized_data_generator.py:71-91 | Appending records one by one to a list file extends the list by them. A missing file ends up holding exactly them. |
| ResumableGeneration.StopAt | src/optimized_data_generator.py:176-216 | The sequential loop stops at the first call that raised, or runs every call. |
| ResumableGeneration.SamplesWithinReached | src/optimized_data_generator.py:189-198 | The sample count is at most the checkpointed position. They are equal when every call up to it produced a sample. |
| ResumableGeneration.AllProduced | src/optimized_data_generator.py:240-269 | All calls gave a sample exactly when the sample count equals the number of calls. |
| ResumableGeneration.SequentialRun | src/optimized_data_generator.py:171-216 | It succeeds exactly when no call raised. The output gains the samples made before the stop, and the checkpoint records the position after the last sample. |
| ResumableGeneration.ConcurrentRun | src/optimized_data_generator.py:218-273 | The count is the number of samples, and the output gains exactly those samples. |
| ResumableGeneration.CheckpointFile | src/optimized_data_generator.py:38-42 | The checkpoint's name is the output's stem, `_`, the dataset type, and `_checkpoint.json`. Its directory is the checkpoint directory when that has no trailing separator. |
| ResumableGeneration.CountCheckpoint | src/optimized_data_generator.py:124-136 | The checkpoint this class writes is truthy and resumes at its completed count with no records. |
| ResumableGeneration.ConcurrentContinue | src/optimized_data_generator.py:218-273 | With fewer than one worker the pool cannot be built: the run fails with no call made, the output unchanged and the checkpoint at the start. Otherwise the run succeeds exactly when every scheduled call gave a sample, and then the checkpoint is deleted. The output gains those samples. On failure the checkpoint counts the start plus the samples made. |
| ResumableGeneration.SequentialContinue | src/optimized_data_generator.py:171-216 | The sequential run succeeds exactly when no call raised, and then the checkpoint is deleted. The output gains the samples made before the first raise. On failure the checkpoint counts the start plus the positions reached. |
| ResumableGeneration.Continue | src/optimized_data_generator.py:124-165 | Success means the checkpoint is deleted. An unknown type fails before any call and keeps the starting checkpoint. A known type runs the concurrent or the sequential loop from the start over the tasks still missing. A concurrent run with fewer than one worker fails with the output unchanged and the checkpoint at the start. |
| ResumableGeneration.Generate | src/optimized_data_generator.py:93-169 | Without resuming, an existing output is reset to an empty list and the run starts at 0. A truthy non-object checkpoint fails. |
| ResumableGeneration.AlreadyDone | src/optimized_data_generator.py:104-115 | A checkpoint at or past the target deletes itself and succeeds without touching the output. |
| ResumableGeneration.ResumeSchedulesRest | src/optimized_data_generator.py:104-158 | A resumed run generates only the tasks after the checkpoint's count. |
| ResumableGeneration.FreshRunReplacesOutput | src/optimized_data_generator.py:116-158 | Without resuming, an existing output ends up holding only this run's samples. A concurrent run with fewer than one worker leaves it an empty list. |
| ResumableGeneration.ConcurrentSuccess | src/optimized_data_generator.py:218-273 | The concurrent run succeeds exactly when there is at least one worker and every scheduled call gave a sample. |
| ResumableGeneration.SequentialCheckpointBounds | src/optimized_data_generator.py:194-198 | A failed sequential run leaves a checkpoint that counts positions reached. That count is at least the number of samples appended and at most the number of tasks attempted, so it can run ahead of the samples. |
| ResumableGeneration.MissingGeneratorFails | src/optimized_data_generator.py:181-184 | As written no per-type generator is ever set, so every call raises. The run fails and leaves the output unchanged. |
| DatasetUtils.MergeDatasets | src/utils.py:35-71 | One write to the output, holding every listed file's records. |
| DatasetUtils.MergeAppend | src/utils.py:45-61 | Merging two batches of paths merges their records in order. |
| DatasetUtils.MergeOne | src/utils.py:46-61 | A path contributes its list, or nothing when it is missing, unreadable or not a list. |
| DatasetUtils.MergedFromLists | src/utils.py:45-61 | Every merged record comes from a path holding a list. |
| DatasetUtils.Trunc | src/utils.py:106 | `int()` truncates toward zero. |
| DatasetUtils.SplitIndexInRange | src/utils.py:106 | With a ratio between 0 and 1, the split index lies within the dataset. |
| DatasetUtils.SplitNames | src/utils.py:111-114 | When the timestamp has no separator, each file's name is the input's stem, `_train_` or `_val_`, the timestamp and `.json`, and the two paths differ. |
| DatasetUtils.SplitDataset | src/utils.py:74-131 | Each error case raises its own exception. On success, train followed by val is the shuffled list, the two parts partition the records, and both files are written. |
| DatasetUtils.SplitSizes | src/utils.py:103-108 | The training part holds exactly the first `int(len * ratio)` shuffled records. |
| DatasetUtils.MinLen | src/utils.py:179-196 | A minimum exists exactly when there is a record. |
| DatasetUtils.LengthBounds | src/utils.py:179-196 | Every record's field length lies between the minimum and the maximum. |
| DatasetUtils.MaxAttained | src/utils.py:179-196 | The maximum is the length of some record's field. |
| DatasetUtils.MinAttained | src/utils.py:179-196 | The minimum is the length of some record's field. |
| DatasetUtils.FieldLengths | src/utils.py:179-196 | The loop computes the minimum, maximum and total lengths of a field. |
| DatasetUtils.AnalyzeDataset | src/utils.py:134-204 | Each error case raises its own exception. A JSON object passes only when empty. A list gives the count and the per-field statistics. |
| PromptConfig.DefaultPrompts | src/prompt_config.py:175-192 | The defaults hold exactly the three built-in types, each with its fields' default templates. |
| PromptConfig.LoadPrompts | src/prompt_config.py:145-173 | The loaded state has exactly the three built-in types. Each comes from the file when the file names it, and is the default otherwise. |
| PromptConfig.LoadAfterSave | src/prompt_config.py:145-201 | A file holding exactly the built-in types loads back as written. |
| PromptConfig.LoadIsStable | src/prompt_config.py:145-201 | Writing back what was loaded, then loading again, changes nothing. |
| PromptConfig.OtherTypesNotLoaded | src/prompt_config.py:152-167 | No type other than the built-in ones is read back. |
| PromptConfig.CategoryOf | src/prompt_config.py:207-209 | A missing type has no entries. |
| PromptConfig.TemplateOf | src/prompt_config.py:220-223 | A bare string entry raises `AttributeError`. An object gives its template, or `''` when it has none. |
| PromptConfig.PromptTemplate | src/prompt_config.py:216-224 | The result is `None` exactly when neither the id nor `default` is present. Otherwise it is the id's template, or else the `default` template. |
| PromptConfig.AddPrompt | src/prompt_config.py:226-242 | The type is created when absent and the entry is set or overwritten. Every other type and entry is unchanged. |
| PromptConfig.UpdatePrompt | src/prompt_config.py:244-258 | It succeeds exactly when the type and id exist. Then only that entry changes, otherwise nothing changes. |
| PromptConfig.UpdateIsAddOfExisting | src/prompt_config.py:226-258 | A successful update is the add of an id already there. |
| PromptConfig.DeletePrompt | src/prompt_config.py:260-270 | It succeeds exactly when the type and id exist and the id is not `default`, and then only that entry is removed. Otherwise nothing changes. No `default` entry is ever removed. |
| PromptConfig.AddThenDelete | src/prompt_config.py:226-270 | Deleting a newly added id of an existing type restores the state. |
| PromptConfig.TemplateAfterAdd | src/prompt_config.py:216-242 | An added prompt's template is what is returned for its id. |
| PromptConfig.TemplateAfterDelete | src/prompt_config.py:216-270 | After deleting an id, the lookup falls back to `default`. |
| PromptConfig.SftPrompts | src/prompt_config.py:278-280 | Returns the stored `sft` type, or its defaults when it is missing. |
| PromptConfig.DpoPrompts | src/prompt_config.py:297-299 | Returns the stored `dpo` type, or its defaults when it is missing. |
| PromptConfig.SftToDpoPrompts | src/prompt_config.py:317-319 | Returns the stored `sft_to_dpo` type, or its defaults when it is missing. |
| PromptConfig.ResetSftPrompts | src/prompt_config.py:291-294 | `sft` becomes its defaults. Every other type is unchanged. |
| PromptConfig.ResetDpoPrompts | src/prompt_config.py:311-314 | `dpo` becomes its defaults. Every other type is unchanged. |
| PromptConfig.ResetSftToDpoPrompts | src/prompt_config.py:328-331 | `sft_to_dpo` becomes its defaults. Every other type is unchanged. |
| PromptConfig.UpdateSftPrompts | src/prompt_config.py:282-289 | Only `sft` changes. |
| PromptConfig.UpdateDpoPrompts | src/prompt_config.py:301-309 | Only `dpo` changes. |
| PromptConfig.UpdateSftToDpoPrompts | src/prompt_config.py:321-326 | Only `sft_to_dpo` changes. |
| PromptConfig.GetAfterUpdate | src/prompt_config.py:278-326 | Each getter returns exactly the fields its update wrote. |
| PromptConfig.ResetIsUpdateWithDefaults | src/prompt_config.py:282-331 | A reset is the update with the default templates. Afterwards the getter returns what a manager without a configuration file returns. |
| PromptConfig.Start | src/prompt_config.py:141-143 | A new manager holds exactly the three built-in types. |
| PromptConfig.Step | src/prompt_config.py:226-331 | After any call, either the file holds the new state or nothing changed. No type is removed. |
| PromptConfig.TypesNeverRemoved | src/prompt_config.py:226-331 | No sequence of calls removes a prompt type. |
| PromptConfig.DefaultSurvives | src/prompt_config.py:260-270 | For a type other than the three managed ones, whose `default` entries the update and reset calls rewrite: a `default` entry survives any sequence of calls unchanged when no add or update names its type. Deletion never removes it. |
| PromptConfig.ReloadGivesState | src/prompt_config.py:145-331 | Loading the file gives the manager's state after any sequence of calls, as long as prompts are added only under built-in types. |
| PromptConfig.RestartRestores | src/prompt_config.py:141-331 | Restarting restores every change made since the start, under the same condition. |
| PromptConfig.AddedTypeLostOnRestart | src/prompt_config.py:152-167 | A prompt added under any other type is written, but is lost on restart. |

## Left out

- I/O is not modelled. Reading, writing and deleting files are values or parameters.
- Write failures are not modelled. The swallowed exceptions of `merge_datasets`, `_save_prompts`, `save_checkpoint` and `append_to_output_file` are not modelled either, and writes are assumed to succeed.
- `os.makedirs` is not modelled. This includes the `FileNotFoundError` that `os.makedirs('')` raises for an output path with no directory part.
- `os.listdir` failure is not modelled. A folder listing is a parameter in the order the OS returns it.
- `setup_directories` is not modelled, because it only creates directories.
- Real threads, `ThreadPoolExecutor` scheduling and the locks of `OptimizedDataGenerator` are not modelled. Only the completion order is modelled, as an arbitrary permutation, because thread safety is outside the model.
- Model services are not modelled. The Ollama and OpenAI-compatible `generate` calls, and the connectivity reply, are parameters. The text of the prompt templates is opaque.
- JSON encoding and decoding are not modelled. They are parameters, or the `FileContent` a path reads as.
- Non-object JSON items are not modelled. Records are JSON objects whose values are taken in their `str()` form.
- A top-level JSON string, number, boolean or `null` in a dataset file is not modelled: `FileContent.JsonValue` holds a JSON object, so `analyze_dataset`, `split_dataset` and the loaders on such a file cannot be represented.
- Pipelines.ResolveInstruction: a drawn instruction counts as missing only when its `str()` form is empty. The source also rejects the falsy values `null`, `0`, `false`, `[]` and `{}` (src/data_generator.py:202-203), whose `str()` forms are not empty; the model goes on with `"None"`, `"0"` and so on.
- Pipelines.ConvertSample: an instruction or output that is `null`, `0`, `false`, `[]` or `{}` is converted from its `str()` form, where the source raises `ValueError` (src/dataset_generators/sft_to_dpo_converter.py:87-90).
- Pipelines.ConvertValidation: "no call exactly when the instruction or output is empty" holds for string values. For those falsy non-string values the source makes no call and the model makes one.
- DatasetUtils.AnalyzeDataset: measures the `str()` form of every field. The source's `len()` (src/utils.py:180-192) raises `TypeError` for a `null`, numeric or boolean field, and counts elements, not characters, for a list or object; neither is modelled.
- `lower()` maps only ASCII letters. Non-ASCII case mapping is left out.
- Path normalisation and Windows separators are left out. Paths are POSIX strings.
- Floating point is not modelled:
  - `train_ratio` is an exact real, and `int()` of it truncates.
  - The `avg` fields of `analyze_dataset` are left out.
  - Progress fractions and percentages are left out.
- Streamlit and tqdm progress output, `print` logging, and timing are left out. Streamlit is treated as not installed. When it is installed, `st.progress(start_index / total_count)` raises `ZeroDivisionError` for an empty list (src/dataset_generators/optimized_sft_to_dpo_converter.py:202 and :256), and that raise is not modelled.
- `get_prompt_types`, `get_prompt_names_by_type` and `get_prompt_info` are left out. They are plain dictionary reads; `get_prompt_info` is what `CategoryOf` returns for the id.
- `get_checkpoint_status`, `list_checkpoints` and `clean_old_checkpoints` are left out. They are directory listings and file ages.
- A checkpoint's extra fields are not modelled. These are `timestamp`, `error`, `start_time`, `last_update` and the run parameters, which are written but never read back.
- DatasetUtils.SplitDataset: a JSON object with two or more entries raises `KeyError` in `random.shuffle`, which looks up integer keys. One with at most one entry passes the shuffle and fails at `data[:split_idx]` (src/utils.py:107). The model says `TypeError` there, which is what Python up to 3.11 raises for an unhashable slice; from Python 3.12 slices are hashable and the same line raises `KeyError`. The source pins no Python version.
- PromptConfig.LoadPrompts: a configuration file whose types are not objects is treated like a well-formed one. Errors such an entry would raise later are not modelled.
- ResumableGeneration.Continue: the per-type generator calls are a parameter, `results`. As written, `OptimizedDataGenerator` never sets `sft_generator` or `dpo_generator`, and `MissingGeneratorFails` states what the code therefore does.
- `app.py`, `config.py`, `config/prompt_config.py`, `file_upload_manager.py` and the scripts are not part of this model. They are the UI, environment constants, a verbatim duplicate, and upload helpers.
