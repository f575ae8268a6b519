/**
 * Building one record: the SFT generator's and the DPO generator's complete
 * and fixed-instruction modes (src/data_generator.py,
 * src/dataset_generators/dpo_generator.py) and the SFT-to-DPO conversion of
 * one record (src/dataset_generators/sft_to_dpo_converter.py).
 *
 * Every generation step draws few-shot examples, fills a prompt template,
 * calls the model and extracts the reply. The step is a parameter `ask`:
 * for a request it gives the model's raw reply, or the error the example
 * draw or the template raised. The result carries the requests made, in
 * order, so the call sequence can be stated.
 */
module Pipelines {

  import opened Wrappers
  import opened Text
  import opened Records
  import opened Extraction
  import opened Instructions

  /** What a step asks the model for. */
  datatype Request =
    | InstructionsRequest(count: int)
    | InputRequest(instruction: string)
    | OutputRequest(instruction: string, input: string)
    | ChosenRequest(instruction: string, input: string)
    | RejectedRequest(instruction: string, input: string, chosen: string)

  type Ask = Request -> Result<string>

  /** The requests made and what came of them. */
  datatype Run<T> = Run(calls: seq<Request>, result: Result<T>)

  /** One generation step: the extracted reply to `req`. */
  function Step(ask: Ask, parse: JsonParser, req: Request): (r: Result<string>)
    ensures ask(req).Err? ==> r == Err(ask(req).error)
    ensures ask(req).Ok? ==> r == Ok(ExtractContent(ask(req).value, parse))
  {
    var reply :- ask(req);
    Ok(ExtractContent(reply, parse))
  }

  /** `generate_instructions(n)` as a step. */
  function InstructionsStep(ask: Ask, parse: JsonParser, n: int): (r: Result<seq<string>>)
    ensures ask(InstructionsRequest(n)).Err? ==> r == Err(ask(InstructionsRequest(n)).error)
    ensures ask(InstructionsRequest(n)).Ok? ==>
              r == Ok(GenerateInstructions(ask(InstructionsRequest(n)).value, n, parse))
    ensures r.Ok? && n >= 0 ==> |r.value| <= n
  {
    var reply :- ask(InstructionsRequest(n));
    Ok(GenerateInstructions(reply, n, parse))
  }

  // ---------------------------------------------------------------------
  // The fixed instruction

  /** Whether a fixed instruction is usable as given:
      `instruction and instruction.strip()`. */
  predicate Usable(fixed: Option<string>) {
    fixed.Some? && HasNonSpace(fixed.value)
  }

  /** The instruction of fixed-instruction mode: a usable fixed instruction
      verbatim, otherwise the instruction of the first drawn record, which
      must not be empty. An empty draw has no first record. */
  function ResolveInstruction(fixed: Option<string>, draw: seq<Record>): (r: Result<string>)
    ensures Usable(fixed) ==> r == Ok(fixed.value)
    ensures !Usable(fixed) && |draw| == 0 ==> r == Err(IndexError)
    ensures !Usable(fixed) && |draw| > 0 ==>
              r == if Get(draw[0], InstructionKey) == "" then Err(ValueError(NoSeedInstruction))
                   else Ok(Get(draw[0], InstructionKey))
    ensures r.Ok? ==> |r.value| > 0
  {
    if Usable(fixed) then
      StripNonEmpty(fixed.value);
      Ok(fixed.value)
    else if |draw| == 0 then Err(IndexError)
    else
      var instruction := Get(draw[0], InstructionKey);
      if instruction == "" then Err(ValueError(NoSeedInstruction)) else Ok(instruction)
  }

  // ---------------------------------------------------------------------
  // SFT records (DataGenerator)

  /** input and output for a settled instruction; `output` is asked for
      with the `input` just produced. */
  function SftFromInstruction(ask: Ask, parse: JsonParser, instruction: string): (r: Run<SftRecord>)
    ensures r.result.Ok? ==>
              var d := r.result.value;
              && d.instruction == instruction
              && r.calls == [InputRequest(instruction), OutputRequest(instruction, d.input)]
              && Step(ask, parse, InputRequest(instruction)) == Ok(d.input)
              && Step(ask, parse, OutputRequest(instruction, d.input)) == Ok(d.output)
    ensures r.result.Err? ==> |r.calls| > 0 && ask(r.calls[|r.calls| - 1]) == Err(r.result.error)
  {
    match Step(ask, parse, InputRequest(instruction))
    case Err(e) => Run([InputRequest(instruction)], Err(e))
    case Ok(input) =>
      var calls := [InputRequest(instruction), OutputRequest(instruction, input)];
      match Step(ask, parse, OutputRequest(instruction, input))
      case Err(e) => Run(calls, Err(e))
      case Ok(output) => Run(calls, Ok(SftRecord(instruction, input, output)))
  }

  /** `generate_input_output_sample(instruction)`; `seed` is the record
      `get_random_samples(1, 1)` draws. */
  function SftFixed(ask: Ask, parse: JsonParser, fixed: Option<string>, seed: Record): (r: Run<SftRecord>)
    ensures r.result.Ok? ==> ResolveInstruction(fixed, [seed]) == Ok(r.result.value.instruction)
    ensures ResolveInstruction(fixed, [seed]).Err? ==> r == Run([], Err(ResolveInstruction(fixed, [seed]).error))
    ensures ResolveInstruction(fixed, [seed]).Ok? ==> r == SftFromInstruction(ask, parse, ResolveInstruction(fixed, [seed]).value)
  {
    match ResolveInstruction(fixed, [seed])
    case Err(e) => Run([], Err(e))
    case Ok(instruction) => SftFromInstruction(ask, parse, instruction)
  }

  /** `generate_complete_sample()` of the SFT generator: the first of one
      generated instruction, then its input and output. */
  function SftComplete(ask: Ask, parse: JsonParser): (r: Run<SftRecord>)
    ensures InstructionsStep(ask, parse, 1) == Ok([]) ==> r.result == Err(ValueError(NoInstructionGenerated))
    ensures r.result.Ok? ==>
              var i := r.result.value.instruction;
              var input := r.result.value.input;
              && InstructionsStep(ask, parse, 1) == Ok([i])
              && r.calls == [InstructionsRequest(1), InputRequest(i), OutputRequest(i, input)]
  {
    match InstructionsStep(ask, parse, 1)
    case Err(e) => Run([InstructionsRequest(1)], Err(e))
    case Ok(instructions) =>
      if |instructions| == 0 then Run([InstructionsRequest(1)], Err(ValueError(NoInstructionGenerated)))
      else
        assert instructions == [instructions[0]];
        var rest := SftFromInstruction(ask, parse, instructions[0]);
        SftCalls(ask, parse, instructions[0]);
        Run([InstructionsRequest(1)] + rest.calls, rest.result)
  }

  lemma SftCalls(ask: Ask, parse: JsonParser, i: string)
    ensures var rest := SftFromInstruction(ask, parse, i);
            rest.result.Ok? ==>
              [InstructionsRequest(1)] + rest.calls == [InstructionsRequest(1), InputRequest(i), OutputRequest(i, rest.result.value.input)]
  {
  }

  /** A generated instruction is never blank, so complete mode gives the
      same record as fixed-instruction mode handed the generated instruction. */
  lemma SftCompleteIsFixedWithGenerated(ask: Ask, parse: JsonParser, seed: Record)
    requires InstructionsStep(ask, parse, 1).Ok? && |InstructionsStep(ask, parse, 1).value| > 0
    ensures var i := InstructionsStep(ask, parse, 1).value[0];
            SftComplete(ask, parse).result == SftFixed(ask, parse, Some(i), seed).result
  {
    var items := InstructionsStep(ask, parse, 1).value;
    assert Clean(items);
    TrimmedNonEmptyHasNonSpace(items[0]);
  }

  // ---------------------------------------------------------------------
  // DPO records (DPODatasetGenerator)

  /** input, chosen and rejected for a settled instruction; `rejected` is
      asked for with the `chosen` just produced. */
  function DpoFromInstruction(ask: Ask, parse: JsonParser, instruction: string): (r: Run<DpoRecord>)
    ensures r.result.Ok? ==>
              var d := r.result.value;
              && d.instruction == instruction
              && r.calls == [InputRequest(instruction), ChosenRequest(instruction, d.input),
                             RejectedRequest(instruction, d.input, d.chosen)]
              && Step(ask, parse, InputRequest(instruction)) == Ok(d.input)
              && Step(ask, parse, ChosenRequest(instruction, d.input)) == Ok(d.chosen)
              && Step(ask, parse, RejectedRequest(instruction, d.input, d.chosen)) == Ok(d.rejected)
    ensures r.result.Err? ==> |r.calls| > 0 && ask(r.calls[|r.calls| - 1]) == Err(r.result.error)
  {
    match Step(ask, parse, InputRequest(instruction))
    case Err(e) => Run([InputRequest(instruction)], Err(e))
    case Ok(input) => DpoAfterInput(ask, parse, instruction, input)
  }

  /** The rest of a DPO record once its input is known: chosen, then
      rejected. The calls include the input request made before. */
  function DpoAfterInput(ask: Ask, parse: JsonParser, instruction: string, input: string): (r: Run<DpoRecord>)
    ensures r.result.Ok? ==>
              var d := r.result.value;
              && d.instruction == instruction && d.input == input
              && r.calls == [InputRequest(instruction), ChosenRequest(instruction, input),
                             RejectedRequest(instruction, input, d.chosen)]
              && Step(ask, parse, ChosenRequest(instruction, input)) == Ok(d.chosen)
              && Step(ask, parse, RejectedRequest(instruction, input, d.chosen)) == Ok(d.rejected)
    ensures r.result.Err? ==> |r.calls| > 1 && ask(r.calls[|r.calls| - 1]) == Err(r.result.error)
  {
    match Step(ask, parse, ChosenRequest(instruction, input))
    case Err(e) => Run([InputRequest(instruction), ChosenRequest(instruction, input)], Err(e))
    case Ok(chosen) =>
      var calls := [InputRequest(instruction), ChosenRequest(instruction, input),
                    RejectedRequest(instruction, input, chosen)];
      match Step(ask, parse, RejectedRequest(instruction, input, chosen))
      case Err(e) => Run(calls, Err(e))
      case Ok(rejected) => Run(calls, Ok(DpoRecord(instruction, input, chosen, rejected)))
  }

  /** `generate_input_output_sample(instruction)` of the DPO generator;
      `draw` is what `get_random_examples()` returns. */
  function DpoFixed(ask: Ask, parse: JsonParser, fixed: Option<string>, draw: seq<Record>): (r: Run<DpoRecord>)
    ensures Usable(fixed) && r.result.Ok? ==> r.result.value.instruction == fixed.value
    ensures r.result.Ok? ==> ResolveInstruction(fixed, draw) == Ok(r.result.value.instruction)
    ensures r.result.Ok? ==> |r.calls| == 3
    ensures ResolveInstruction(fixed, draw).Err? ==> r == Run([], Err(ResolveInstruction(fixed, draw).error))
  {
    match ResolveInstruction(fixed, draw)
    case Err(e) => Run([], Err(e))
    case Ok(instruction) => DpoFromInstruction(ask, parse, instruction)
  }

  /** `generate_complete_sample()` of the DPO generator. */
  function DpoComplete(ask: Ask, parse: JsonParser): (r: Run<DpoRecord>)
    ensures InstructionsStep(ask, parse, 1) == Ok([]) ==> r.result == Err(ValueError(NoInstructionGenerated))
    ensures r.result.Ok? ==> InstructionsStep(ask, parse, 1) == Ok([r.result.value.instruction])
    ensures r.result.Ok? ==> |r.calls| == 4 && r.calls[0] == InstructionsRequest(1)
  {
    match InstructionsStep(ask, parse, 1)
    case Err(e) => Run([InstructionsRequest(1)], Err(e))
    case Ok(instructions) =>
      if |instructions| == 0 then Run([InstructionsRequest(1)], Err(ValueError(NoInstructionGenerated)))
      else
        assert instructions == [instructions[0]];
        var rest := DpoFromInstruction(ask, parse, instructions[0]);
        Run([InstructionsRequest(1)] + rest.calls, rest.result)
  }

  /** A generated instruction is never blank, so complete mode gives the
      same record as fixed-instruction mode handed the generated
      instruction, after the one extra call that generated it. */
  lemma DpoCompleteIsFixedWithGenerated(ask: Ask, parse: JsonParser, draw: seq<Record>)
    requires InstructionsStep(ask, parse, 1).Ok? && |InstructionsStep(ask, parse, 1).value| > 0
    ensures var i := InstructionsStep(ask, parse, 1).value[0];
            && DpoComplete(ask, parse).result == DpoFixed(ask, parse, Some(i), draw).result
            && DpoComplete(ask, parse).calls == [InstructionsRequest(1)] + DpoFixed(ask, parse, Some(i), draw).calls
  {
    var items := InstructionsStep(ask, parse, 1).value;
    assert Clean(items);
    TrimmedNonEmptyHasNonSpace(items[0]);
  }

  /** Fixed-instruction mode with a usable instruction keeps it verbatim
      (leading and trailing spaces included) and asks for input, chosen and
      rejected in that order. */
  lemma DpoFixedKeepsInstruction(ask: Ask, parse: JsonParser, fixed: string, draw: seq<Record>)
    requires HasNonSpace(fixed)
    ensures var r := DpoFixed(ask, parse, Some(fixed), draw);
            r.result.Ok? ==>
              && r.result.value.instruction == fixed
              && r.calls[0] == InputRequest(fixed)
              && r.calls[2] == RejectedRequest(fixed, r.result.value.input, r.result.value.chosen)
  {
  }

  /** The DPO record's four keys hold the instruction, the generated input,
      and the two answers. */
  lemma DpoRecordKeys(ask: Ask, parse: JsonParser)
    ensures var r := DpoComplete(ask, parse);
            r.result.Ok? ==> r.result.value.ToRecord().Keys == {InstructionKey, InputKey, ChosenKey, RejectedKey}
  {
  }

  // ---------------------------------------------------------------------
  // Mode dispatch

  const CompleteMode := "complete"
  const InputOutputMode := "input_output"

  /** `DPODatasetGenerator.generate_sample(mode, fixed_instruction)`. */
  function DpoSample(ask: Ask, parse: JsonParser, mode: string, fixed: Option<string>, draw: seq<Record>): (r: Run<DpoRecord>)
    ensures mode == CompleteMode ==> r == DpoComplete(ask, parse)
    ensures mode == InputOutputMode ==> r == DpoFixed(ask, parse, fixed, draw)
    ensures mode != CompleteMode && mode != InputOutputMode ==> r == Run([], Err(ValueError(UnsupportedMode)))
  {
    if mode == CompleteMode then DpoComplete(ask, parse)
    else if mode == InputOutputMode then DpoFixed(ask, parse, fixed, draw)
    else Run([], Err(ValueError(UnsupportedMode)))
  }

  /** The per-sample branch of `DataGenerator`'s loops: complete mode,
      fixed-instruction mode, or a ValueError for any other mode. */
  function SftSample(ask: Ask, parse: JsonParser, mode: string, fixed: Option<string>, seed: Record): (r: Run<SftRecord>)
    ensures mode == CompleteMode ==> r == SftComplete(ask, parse)
    ensures mode == InputOutputMode ==> r == SftFixed(ask, parse, fixed, seed)
    ensures mode != CompleteMode && mode != InputOutputMode ==> r == Run([], Err(ValueError(UnsupportedMode)))
  {
    if mode == CompleteMode then SftComplete(ask, parse)
    else if mode == InputOutputMode then SftFixed(ask, parse, fixed, seed)
    else Run([], Err(ValueError(UnsupportedMode)))
  }

  // ---------------------------------------------------------------------
  // SFT-to-DPO conversion of one record

  /** `convert_sft_sample_to_dpo(sample)`: instruction, input and output are
      copied (missing ones read as `""`), the output becomes `chosen`, and
      only `rejected` is generated. */
  function ConvertSample(ask: Ask, parse: JsonParser, sft: Record): (r: Run<DpoRecord>)
    ensures Get(sft, InstructionKey) == "" ==> r == Run([], Err(ValueError(MissingInstruction)))
    ensures Get(sft, InstructionKey) != "" && Get(sft, OutputKey) == "" ==> r == Run([], Err(ValueError(MissingOutput)))
    ensures r.result.Ok? ==>
              var d := r.result.value;
              && d.instruction == Get(sft, InstructionKey)
              && d.input == Get(sft, InputKey)
              && d.chosen == Get(sft, OutputKey)
              && r.calls == [RejectedRequest(d.instruction, d.input, d.chosen)]
              && Step(ask, parse, r.calls[0]) == Ok(d.rejected)
  {
    var instruction := Get(sft, InstructionKey);
    var input := Get(sft, InputKey);
    var chosen := Get(sft, OutputKey);
    if instruction == "" then Run([], Err(ValueError(MissingInstruction)))
    else if chosen == "" then Run([], Err(ValueError(MissingOutput)))
    else
      var req := RejectedRequest(instruction, input, chosen);
      match Step(ask, parse, req)
      case Err(e) => Run([req], Err(e))
      case Ok(rejected) => Run([req], Ok(DpoRecord(instruction, input, chosen, rejected)))
  }

  /** Conversion fails before calling the model exactly when the instruction
      or the output is missing or empty; the input is never checked. */
  lemma ConvertValidation(ask: Ask, parse: JsonParser, sft: Record)
    ensures ConvertSample(ask, parse, sft).calls == [] <==>
            Get(sft, InstructionKey) == "" || Get(sft, OutputKey) == ""
    ensures Get(sft, InstructionKey) != "" && Get(sft, OutputKey) != "" && ask(RejectedRequest(
              Get(sft, InstructionKey), Get(sft, InputKey), Get(sft, OutputKey))).Ok?
            ==> ConvertSample(ask, parse, sft).result.Ok?
  {
  }

  /** `SFTToDPOConverter.generate_sample()`: convert the first drawn record. */
  function ConvertDrawn(ask: Ask, parse: JsonParser, draw: seq<Record>): (r: Run<DpoRecord>)
    ensures |draw| == 0 ==> r == Run([], Err(IndexError))
    ensures |draw| > 0 ==> r == ConvertSample(ask, parse, draw[0])
  {
    if |draw| == 0 then Run([], Err(IndexError)) else ConvertSample(ask, parse, draw[0])
  }

  /** A run's outcome as a task outcome: the record, or nothing when it
      raised. */
  function Outcome<T>(r: Run<T>): (o: Option<T>)
    ensures o.Some? <==> r.result.Ok?
    ensures o.Some? ==> o.value == r.result.value
  {
    if r.result.Ok? then Some(r.result.value) else None
  }
}
