/**
 * Dataset records. A record read from a dataset file is a JSON object;
 * its values are modelled by their `str()` form. The generators build SFT
 * records (instruction/input/output) and DPO records
 * (instruction/input/chosen/rejected).
 */
module Records {

  /** A JSON object read from a dataset file. */
  type Record = map<string, string>

  /** `record.get(key, '')` */
  function Get(r: Record, key: string): (v: string)
    ensures key in r ==> v == r[key]
    ensures key !in r ==> v == ""
  {
    if key in r then r[key] else ""
  }

  const InstructionKey := "instruction"
  const InputKey := "input"
  const OutputKey := "output"
  const ChosenKey := "chosen"
  const RejectedKey := "rejected"

  datatype SftRecord = SftRecord(instruction: string, input: string, output: string) {
    /** The JSON object written for the record. */
    function ToRecord(): (r: Record)
      ensures r.Keys == {InstructionKey, InputKey, OutputKey}
      ensures Get(r, InstructionKey) == instruction && Get(r, InputKey) == input
      ensures Get(r, OutputKey) == output
    {
      map[InstructionKey := instruction, InputKey := input, OutputKey := output]
    }
  }

  datatype DpoRecord = DpoRecord(instruction: string, input: string, chosen: string, rejected: string) {
    /** The JSON object written for the record: exactly four keys. */
    function ToRecord(): (r: Record)
      ensures r.Keys == {InstructionKey, InputKey, ChosenKey, RejectedKey}
      ensures Get(r, InstructionKey) == instruction && Get(r, InputKey) == input
      ensures Get(r, ChosenKey) == chosen && Get(r, RejectedKey) == rejected
    {
      map[InstructionKey := instruction, InputKey := input, ChosenKey := chosen, RejectedKey := rejected]
    }
  }

  /** Reading a DPO record back from its JSON object gives the record. */
  lemma DpoRoundTrip(d: DpoRecord)
    ensures var r := d.ToRecord();
            DpoRecord(Get(r, InstructionKey), Get(r, InputKey), Get(r, ChosenKey), Get(r, RejectedKey)) == d
  {
  }

  /** Reading an SFT record back from its JSON object gives the record. */
  lemma SftRoundTrip(s: SftRecord)
    ensures var r := s.ToRecord();
            SftRecord(Get(r, InstructionKey), Get(r, InputKey), Get(r, OutputKey)) == s
  {
  }
}
